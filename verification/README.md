# Verified model of Grave Protocol's snapshot, proof and certification core

Grave Protocol salvages liquidity pools that are provably dead. Three parts of it decide who gets
what, and this project models them and proves what they promise:

* **Snapshot, tree, proof, artifact.** `snapshotter` turns an enumeration of LP token accounts and
  lock records into a canonical holder list, grows a sorted-pair Merkle tree over it and publishes a
  sealed artifact; `grave-vault` folds a claim's proof back to the root; the TypeScript SDK has its
  own snapshot pipeline and its own tree.
* **Two-phase certification.** `grave-scanner` anchors a derelict pool in one transaction, certifies
  it at least two epochs later in another, and lets anyone sweep stale anchors.
* **Byte-level evidence.** The locker evidence scan, the attestation messages, the ed25519 offset
  checker and the instruction the SDK builds for it, the `SlotHashes` lookup, and the SDK's Borsh
  writer and reader.

## How it is modelled

Loops, buffers and accounts that the source updates in place are methods and classes here, each
proved against a specification over values; the theorems are lemmas about those specifications.

* **The hash is a parameter.** `MerkleTree.Hash` wraps an arbitrary function from byte strings to 32
  bytes. It is never assumed injective. Every security lemma returns an `Evidence`: either
  `NoCollision`, and then the conclusion holds, or `Collision(p, q)`, two different preimages of 40
  or 64 bytes with one digest (`MerkleSecurity.Sound`).
* **32-byte keys and digests** are numbers below 2^256, most significant byte first.
  `Bytes.Bytes32OrderIsLexicographic` and `Bytes.Bytes32RoundTrip` show that their numeric order is
  the byte order the Rust and TypeScript code compares by and that nothing is lost.
* **Machine integers** are subset types; every checked, saturating or panicking operation of the
  source is an explicit branch.
* **The scanner is a state machine.** `ScannerState.Step` is one instruction by anyone with any
  evidence, or a clock tick; the clock's wall time is arbitrary, only epochs and slots never go back.
  `Scanner.Program` holds the accounts as fields, and every handler is proved to be that step. The
  theorems of `ScannerRuns`, `ScannerPedigree` and `ScannerSweep` are about all runs.
* Program-derived addresses are an arbitrary pair of functions of their seeds (`Locker.Pda`).

| module | of |
|---|---|
| `Bytes`, `Wrappers`, `Permutations` | encodings, results, permuted lists |
| `SnapshotModel`, `SnapshotLedger`, `SnapshotSpec`, `SnapshotBuilder`, `SnapshotProperties`, `SnapshotCustody`, `SnapshotRecord`, `SnapshotWitness` | the snapshot builder |
| `MerkleTree`, `MerkleSplit`, `MerkleSecurity` | the tree, its recursive definition, what a root binds |
| `SnapshotArtifact` | the sealed artifact |
| `SdkMerkle`, `SdkSnapshot` | the SDK's tree and pipeline |
| `ScannerErrors`, `Criteria`, `Attestation`, `Locker`, `ScannerState`, `Scanner` | the scanner's checks, steps and handlers |
| `ScannerInstructions` | each instruction's exact condition and effect, from its raw inputs |
| `ScannerRuns`, `ScannerPedigree`, `ScannerSweep`, `ScannerEvidence`, `ScannerThresholds`, `ScannerWitness` | its runs: what holds in all of them, and runs that exist |
| `Borsh` | the SDK's writer and reader |

`dafny verify dfyconfig.toml` checks everything.

## Where the code and its comments part

The model follows the code in each case.

* `programs/grave-scanner/src/instructions/sweep_stale_anchor.rs:7-15` says a swept anchor's cert has
  always expired. Phase 2 stays open in the epochs in which sweeping is:
  `ScannerWitness.SweptAnchorCanLeaveALiveCert` is a complete run that ends with the anchor swept and
  the cert minted from it live, and `ScannerSweep.SweepLeavesLiveCertIff` says exactly when that
  happens: some Phase 2 of the run used that anchor less than the TTL of that moment ago.
* `snapshotter/src/builder.rs:214` asserts, in debug builds, that what is removed for the custody
  owner is the chosen account's balance. It holds exactly when every other account of that owner is
  empty (`SnapshotWitness.RemovedIsChosenIff`, `SnapshotWitness.CustodianWithTwoAccounts`).
* `snapshotter/src/lib.rs:48-52` says declared sinks are excluded from the leaf set. A sink that is a
  lock's beneficial owner is in it (`SnapshotProperties.SinkHasEntryIffLockOwner`,
  `SnapshotWitness.SinkThatLocks`).
* A fully withdrawn lock whose owner holds nothing else makes `build` fail with
  `InvariantViolated` (`SnapshotProperties.FailureMap`, `SnapshotWitness.WithdrawnLockAborts`).
* `SnapshotArtifact::verify_integrity` adds two `u64` totals unchecked; with the release profile's
  overflow checks that addition panics instead of returning an error
  (`SnapshotArtifact.VerifyIntegrity` states when, `SnapshotArtifact.SelfCheckCanPanic` gives an
  artifact).
* The SDK's completeness gate compares the total *after* sink exclusion with the supply
  (`sdk/src/snapshot.ts:142-150`), the Rust builder the total before it; `SdkSnapshot.SinksDivideThePipelines`
  gives, without locks, the inputs on which one succeeds and the other does not, and
  `SnapshotWitness.PipelinesDisagree` one for each direction. Where the Rust builder succeeds, the SDK
  lists the same holders exactly when no sink holds anything and nothing is locked
  (`SdkSnapshot.SameHoldersIff`): with live locks it lists the custodian
  (`SnapshotWitness.LockedPipelinesDiffer`).
* The SDK's tree accepts balances past `u64` and hashes only their low 64 bits
  (`SdkMerkle.SdkRootBindsModulo`, `SdkMerkle.SdkRootIgnoresHighBits`, `SdkMerkle.TwoSdkListsOneRoot`).
* `initialize` does not bound `price_collapse_bps`, `update_protocol_config` does
  (`ScannerThresholds.InitializeCanDisableTheProtocol`). Updates in turn accept values that rule every
  pool out: a dust bound of `u64::MAX`, or the full-collapse threshold of 10000 over a positive TVL floor
  (`ScannerThresholds.UpdateCanDisableTheProtocol`). `ScannerThresholds.ConfigAnchorsIff` and
  `ScannerThresholds.ConfigCertifiesIff` give the exact conditions for every configuration a run can
  reach.
* Past a launch price of `u128::MAX / 10000` the price check is not monotone: a price too low to scale
  fails with `MathOverflow`, a higher one passes (`Criteria.RisePassesIff`, `Criteria.RevivalCanPass`).

## Model

| member | source | states |
|---|---|---|
| `SnapshotModel.ValidateEntriesIffCanonical` | snapshotter/src/model.rs:152-177 | the adjacent-pair scan accepts exactly the non-empty, strictly ascending, positive lists, and says `EmptySnapshot` for the empty one |
| `SnapshotBuilder.Build` | snapshotter/src/builder.rs:81-283 | the eight-step pipeline of loops and maps returns the snapshot, or the error, that per-owner sums define |
| `SnapshotBuilder.SumBalances` | snapshotter/src/builder.rs:93-108 | the enumerated total, or `Overflow` past `u128` |
| `SnapshotBuilder.AggregateOwners` | snapshotter/src/builder.rs:109-118 | the map holds every owner's sum; it overflows only if the enumerated total exceeds `u64` |
| `SnapshotBuilder.ExclusionPass` | snapshotter/src/builder.rs:119-144 | what stays claimable is each non-sink owner's positive total; the ledger lists zero and sink owners in ascending order; the sink total is the sinks' sum |
| `SnapshotBuilder.AggregateLocks` | snapshotter/src/builder.rs:145-165 | per-owner locked sums and their total |
| `SnapshotBuilder.TakeCustody` | snapshotter/src/builder.rs:166-225 | the custody choice: the account whose balance is the locked total, a lone one or the only one an override names; its owner leaves the claimable map |
| `SnapshotBuilder.MergeAttributions` | snapshotter/src/builder.rs:237-240 | every owner ends with claimable plus locked; the checked add cannot fail |
| `SnapshotBuilder.CloseLedger` | snapshotter/src/builder.rs:242-282 | the closing identity, the reconciliation and the canonicality check, on the merged leaf set |
| `SnapshotProperties.OrderIndependence` | snapshotter/src/lib.rs:54-66 | permuting token accounts and lock records changes nothing in the result, error or snapshot, ledgers included |
| `SnapshotProperties.CustodyIsOrderIndependent` | snapshotter/src/builder.rs:166-225 | nor does it change which custody account is chosen, or why none is |
| `SnapshotCustody.CustodyIff` | snapshotter/src/builder.rs:166-225 | with something locked, custody resolves to account `k` exactly when `k` is the only account with the locked balance, or the only such account whose owner an override names, and its owner is neither a lock owner nor a sink; as an exact match exactly when the balance is unique |
| `SnapshotCustody.CustodyErrors` | snapshotter/src/builder.rs:166-208 | each of the four custody errors has its exact condition over the accounts, the candidate count included |
| `SnapshotCustody.BuildCustodyErrors` | snapshotter/src/builder.rs:166-208 | and so of the whole build, past the supply gate |
| `SnapshotCustody.BuildTakesChosen` | snapshotter/src/builder.rs:166-225 | a successful build with something locked records the chosen account, its owner, balance and how it was found |
| `SnapshotRecord.SnapshotRecords` | snapshotter/src/builder.rs:119-165 | a finished snapshot names the request and the slot; its exclusion ledger lists exactly the owners without a balance and the sinks with one, with amount and reason, ascending; its report gives every lock owner exactly what is locked for it |
| `SnapshotRecord.SupplyGate` | snapshotter/src/builder.rs:93-108 | an enumeration other than the supply, and no other, is refused with both totals, or as an overflow past `u64` |
| `SnapshotProperties.SnapshotIsExact` | snapshotter/src/builder.rs:110-256 | every owner's entry is its unlocked total (zero for a sink or the custodian) plus its locked total; entries plus sinks are the enumeration are the supply; the list is canonical |
| `SnapshotSpec.Conservation` | snapshotter/src/builder.rs:242-256 | leaf set plus sinks plus what left with the custodian is everything enumerated plus everything locked |
| `SnapshotSpec.EntryIsBalance` | snapshotter/src/builder.rs:226-248 | in the leaf set every owner, listed or not, has its claimable plus its locked total |
| `SnapshotSpec.EntriesTotalFits` | snapshotter/src/builder.rs:249-256 | once custody is settled, entries and sinks add up to at most the enumeration, so the closing sums cannot overflow |
| `SnapshotProperties.FailureMap` | snapshotter/src/builder.rs:96-271 | past the supply gate: `Overflow` exactly when the locks exceed `u64`; `InvariantViolated` exactly when the custodian holds more than is locked or some lock owner ends with zero; `EmptySnapshot` exactly when nobody is owed anything; no other error but the custody errors |
| `SnapshotProperties.SinkHasEntryIffLockOwner` | snapshotter/src/lib.rs:48-52 | a declared sink is in the leaf set exactly when some lock record names it |
| `SnapshotWitness.RemovedIsChosenIff` | snapshotter/src/builder.rs:209-214 | the debug assertion holds exactly when every other account of the chosen account's owner is empty, and exactly then the closing identity holds |
| `SnapshotWitness.CustodianWithTwoAccounts` | snapshotter/src/builder.rs:209-214 | an input on which it does not, and the build aborts |
| `SnapshotWitness.SinkThatLocks` | snapshotter/src/lib.rs:48-52 | an input on which a declared sink is in the leaf set |
| `SnapshotWitness.WithdrawnLockAborts` | snapshotter/src/builder.rs:237-271 | an input on which a withdrawn lock makes the build fail |
| `SnapshotWitness.OverrideIsHonoured` | snapshotter/src/builder.rs:180-200 | an input with two matching accounts on which the override decides and the build succeeds |
| `Bytes.Bytes32OrderIsLexicographic` | snapshotter/src/tree.rs:165-171 | comparing 32-byte arrays lexicographically is comparing the numbers they spell |
| `Bytes.Bytes32RoundTrip` | snapshotter/src/model.rs:21-25 | keys and digests as numbers lose nothing of the arrays |
| `Bytes.LastByteWeighs` | snapshotter/src/tree.rs:155-160 | little-endian: the last byte is the most significant |
| `MerkleTree.HashLevel` | snapshotter/src/tree.rs:65-76 | one level: pairs are hashed, an odd last node is promoted unchanged |
| `MerkleTree.FromEntries` | snapshotter/src/tree.rs:57-80 | the level loop builds the levels over the leaves of a canonical list and refuses every other list with the validator's error |
| `MerkleTree.Proof` | snapshotter/src/tree.rs:124-140 | the siblings on the path of a leaf, none for a promoted node; nothing past the last leaf |
| `MerkleTree.VerifyProof` | programs/grave-vault/src/merkle.rs:43-57 | accepts exactly when folding the proof over the leaf gives the root |
| `MerkleTree.LevelsAreBuilt` | snapshotter/src/tree.rs:44-80 | every built level list is linked: each level hashes to the next, only the last has one node |
| `MerkleTree.LinkedLevelsAreLevels` | snapshotter/src/tree.rs:44-80 | and it is the only such list over its leaves |
| `MerkleSplit.SplitPointIsPowerOfTwo` | snapshotter/src/tree.rs:65-76 | the split point of the recursive definition is the largest power of two below the leaf count |
| `MerkleSplit.LevelsComputeSplitRoot` | snapshotter/src/tree.rs:65-95 | the level-by-level builder with promotion computes the recursive largest-power-of-two split |
| `MerkleSplit.ProofIsSplitProof` | snapshotter/src/tree.rs:124-140 | the proof read off the levels is the recursive audit path |
| `MerkleSplit.EveryProofVerifies` | programs/grave-vault/src/merkle.rs:43-57 | every built proof folds to the built root, promoted leaves included |
| `MerkleSplit.DepthIsLeastPower` | snapshotter/src/tree.rs:105-108 | the depth is the least `d` with `2^d` at least the leaf count |
| `MerkleSplit.ProofLength` | snapshotter/src/tree.rs:114-140 | a proof has one digest per level of its path that is not promoted, at most the depth, at least one beyond a single leaf |
| `MerkleSecurity.RootBindsEntries` | snapshotter/src/tree.rs:57-78 | two ascending lists with one root are equal, or a collision is returned |
| `MerkleSecurity.RootBindsHolderList` | snapshotter/src/tree.rs:57-95 | two accepted lists whose trees have one root agree in length, owners, balances and order, or a collision is returned |
| `MerkleSecurity.AcceptedProofIsTheBuiltProof` | programs/grave-vault/src/merkle.rs:29-57 | a proof accepted for (holder, balance) is the tree's own proof of that holder's only entry with that balance, or a collision is returned |
| `MerkleSecurity.PairPreimageInjective` | snapshotter/src/tree.rs:165-171 | a sorted pair's 64 bytes determine the unordered pair |
| `MerkleSecurity.LeafPreimageInjective` | programs/grave-vault/src/merkle.rs:29-34 | a leaf's 40 bytes determine holder and balance |
| `MerkleSecurity.PreimageLayout` | programs/grave-vault/src/merkle.rs:29-57 | a leaf hashes the key and the little-endian balance, a pair the two digests with the byte-lexicographically lower one first |
| `SnapshotArtifact.Seal` | snapshotter/src/artifact.rs:105-136 | seals with the tree's leaves and proofs, and refuses a tree that is not the snapshot's |
| `SnapshotArtifact.SealIff` | snapshotter/src/artifact.rs:105-136 | sealing succeeds exactly for a canonical leaf set and a tree grown from its leaves; the artifact then re-derives, over the snapshot's own holders and fields and the tree's root; a foreign tree is `ArtifactMismatch`, a list that is not canonical the validator's error |
| `SnapshotArtifact.VerifyIntegrity` | snapshotter/src/artifact.rs:155-227 | passes exactly the artifacts whose root, count, depth, leaves and proofs re-derive and whose ledger closes; panics exactly when the two totals add up past `u64` |
| `SnapshotArtifact.DerivesIffSealed` | snapshotter/src/artifact.rs:155-199 | the self-check's derivations hold exactly of the artifacts that sealing some snapshot with some tree gives |
| `SnapshotArtifact.SelfCheckCanPanic` | snapshotter/src/artifact.rs:214-216 | an artifact on which it panics, whatever the hash |
| `SnapshotArtifact.BuiltSnapshotSealsAndVerifies` | snapshotter/src/lib.rs:76-79 | every snapshot `build` returns makes a tree, seals, and passes the self-check |
| `SnapshotArtifact.VerifiedProofsAreAccepted` | snapshotter/src/artifact.rs:186-199 | every proof in an artifact that passes is accepted on chain for its own holder and balance |
| `SnapshotArtifact.OneRootOneLeafSet` | snapshotter/src/artifact.rs:155-227 | two passing artifacts with one root have the same entries, leaves, proofs, count and depth, or a collision is returned |
| `SnapshotArtifact.AcceptedClaimsNeverExceedSupply` | snapshotter/src/artifact.rs:200-225 | any set of accepted claims by different holders against a passing artifact's root sums to at most the supply, or a collision is returned |
| `SdkMerkle.CompareBytes` | sdk/src/merkle.ts:60-70 | the byte loop decides the lexicographic order and equality |
| `SdkMerkle.SdkValidate` | sdk/src/merkle.ts:91-117 | accepts exactly the non-empty, strictly ascending lists of positive balances |
| `SdkMerkle.SdkFromEntries` | sdk/src/merkle.ts:91-135 | builds the Rust tree over the balances modulo 2^64 |
| `SdkMerkle.SdkProof` | sdk/src/merkle.ts:170-187 | the same path siblings as the Rust tree |
| `SdkMerkle.SdkVerifyProof` | sdk/src/merkle.ts:208-218 | the same verdict as the on-chain fold |
| `SdkMerkle.SdkTreeAgrees` | sdk/src/merkle.ts:91-187 | on `u64` balances both builders accept the same lists and give the same tree, hence root and proofs |
| `SdkMerkle.SdkRootBindsModulo` | sdk/src/merkle.ts:38-48 | one SDK root binds owners and order, and balances modulo 2^64 only, or a collision is returned |
| `SdkMerkle.SdkRootIgnoresHighBits` | sdk/src/merkle.ts:38-48 | lists that agree modulo 2^64 do have one root |
| `SdkMerkle.TwoSdkListsOneRoot` | sdk/src/merkle.ts:38-48 | two different accepted lists with one root, whatever the hash |
| `SdkSnapshot.SnapshotLpHolders` | sdk/src/snapshot.ts:105-187 | steps 3 to 6 succeed exactly on the inputs whose non-sink total is the supply and positive, with the ascending holders and the tree over them |
| `SdkSnapshot.PipelinesAgree` | sdk/src/snapshot.ts:105-187 | without sinks and locks the two pipelines succeed on the same inputs with the same holders, and the tree over them is one tree |
| `SdkSnapshot.RustWithoutLocks` | snapshotter/src/builder.rs:96-144 | without locks the Rust builder succeeds exactly when the enumeration is the supply and somebody outside the sinks holds something |
| `SdkSnapshot.SinksDivideThePipelines` | sdk/src/snapshot.ts:142-150 | with sinks and without locks, exactly when one pipeline succeeds and the other does not, in either direction |
| `SdkSnapshot.LocksDivideThePipelines` | snapshotter/src/builder.rs:166-240 | with anything locked, two pipelines that both succeed never list the same holders: the custodian holds the locked total in the SDK's list and nothing in the Rust one |
| `SdkSnapshot.SameHoldersIff` | sdk/src/snapshot.ts:105-187 | where the Rust builder succeeds, the SDK succeeds with the same holders exactly when no sink holds anything and nothing is locked |
| `SnapshotWitness.LockedPipelinesDiffer` | snapshotter/src/builder.rs:166-240 | an enumeration with a live lock on which both succeed with different lists |
| `SnapshotWitness.PipelinesDisagree` | sdk/src/snapshot.ts:142-150 | an enumeration on which, by the supply, either pipeline succeeds alone |
| `Criteria.PriceIsExact` | programs/grave-scanner/src/adapters/mod.rs:63-71 | the fixed-point price never overflows for a positive base and is the exact floor |
| `Criteria.PriceMonotone` | programs/grave-scanner/src/adapters/mod.rs:63-71 | more quote or less base never lowers the price |
| `Criteria.DropBpsIsExact` | programs/grave-scanner/src/criteria.rs:193-207 | errs exactly when the scaled difference exceeds `u128`, otherwise is the unbounded floor; the clamp is never reached |
| `Criteria.PassesIffCrossMultiplied` | programs/grave-scanner/src/criteria.rs:128-132 | reaching a positive threshold is the division-free inequality |
| `Criteria.DropMonotone` | programs/grave-scanner/src/criteria.rs:193-207 | for every launch price, where a price can be scaled and fails, every higher price fails |
| `Criteria.RisePassesIff` | programs/grave-scanner/src/criteria.rs:193-207 | a rise turns a failing price check into a passing one exactly from prices whose drop overflows the scaling, when the largest drop that does not still reaches the threshold |
| `Criteria.RevivalPassesOnlyPastOverflow` | programs/grave-scanner/src/criteria.rs:124-132 | reviving the reserves turns a failing price check into a passing one only where it failed for overflow, so never up to a launch price of `u128::MAX / 10000` |
| `Criteria.RevivalCanPass` | programs/grave-scanner/src/criteria.rs:193-207 | reserves for which it does, one past that bound |
| `Criteria.Evaluate` | programs/grave-scanner/src/criteria.rs:102-186 | the accumulating evaluator gives the first refusal in criteria order, or the full mask |
| `Criteria.EvaluateIffDerelict` | programs/grave-scanner/src/criteria.rs:102-186 | it passes exactly the pools that meet all six criteria, stated without division or order, and always with mask 0x3F |
| `Criteria.RefusalIff` | programs/grave-scanner/src/criteria.rs:102-186 | what each refusal says: the exact condition of every error code, the epoch gap last, of a pool that meets everything else |
| `Criteria.SomePoolPassesIff` | programs/grave-scanner/src/criteria.rs:102-186 | some inputs meet given thresholds exactly when the collapse threshold is at most 10000 and the dust bound below `u64::MAX` |
| `Criteria.ThresholdAboveFullDropBlocks` | programs/grave-scanner/src/instructions/initialize.rs:65-69 | a collapse threshold above 10000 makes every evaluation fail |
| `ScannerThresholds.ConfigAnchorsIff` | programs/grave-scanner/src/instructions/update_protocol_config.rs:62-108 | a configuration that some run reaches can anchor some pool in some reachable state exactly when it is not paused, its collapse threshold is below 10000, or 10000 with no TVL floor, its dust bound below `u64::MAX` and its inactivity below `i64::MAX` |
| `ScannerThresholds.ConfigCertifiesIff` | programs/grave-scanner/src/instructions/update_protocol_config.rs:62-108 | and certify one exactly when, besides, inactivity, TTL and one second fit `i64` together |
| `ScannerThresholds.InitialConfigAnchorsIff` | programs/grave-scanner/src/instructions/initialize.rs:60-103 | for `initialize`, in its parameters: a collapse threshold below 10000, a dust bound below `u64::MAX`, an inactivity below `i64::MAX` |
| `ScannerThresholds.InitialConfigCertifiesIff` | programs/grave-scanner/src/instructions/initialize.rs:60-103 | and to certify, room for inactivity, TTL and one second in `i64` |
| `ScannerThresholds.InitializeCanDisableTheProtocol` | programs/grave-scanner/src/instructions/initialize.rs:65-69 | `initialize` succeeds with a collapse threshold of 10001, which an update refuses, and no reachable state with that configuration anchors or certifies anything |
| `ScannerThresholds.UpdateCanDisableTheProtocol` | programs/grave-scanner/src/instructions/update_protocol_config.rs:69-91 | from every configuration the authority's update to a dust bound of `u64::MAX` succeeds and has the same effect; so has one to a threshold of 10000, when there is a TVL floor |
| `Attestation.BuildEd25519VerifyInstruction` | sdk/src/lastSwapAttestation.ts:134-185 | refuses everything but a 64-byte signature, an index below 0xFFFF and the two canonical spans, and lays out header, key and signature byte for byte |
| `Attestation.PrecompileLayout` | sdk/src/lastSwapAttestation.ts:134-185 | in the runtime's numbers: one signature, the seven offsets, the key at 16 and the signature at 48 |
| `Attestation.CheckerAcceptsIffBuilderAgrees` | programs/grave-scanner/src/attestation.rs:254-333 | the checker accepts exactly the data that agrees with the builder's on every byte but the padding byte, the signature and what follows |
| `Attestation.BuiltPrecompileIsAccepted` | programs/grave-scanner/src/attestation.rs:254-333 | whatever the SDK builds for an oracle, span and index, the checker accepts for them |
| `Attestation.ScanSlotHashes` | programs/grave-scanner/src/attestation.rs:341-369 | for any data and claimed count, no read out of bounds and at most `len/40 + 1` steps |
| `Attestation.LookupFindsFirst` | programs/grave-scanner/src/attestation.rs:341-369 | on an encoded list: the hash of the first entry with the slot, or nothing exactly when no entry has it |
| `Attestation.LookupIff` | programs/grave-scanner/src/attestation.rs:341-369 | whatever the bytes: the hash of the first claimed entry within the data for the slot, or nothing exactly when there is none |
| `Attestation.AttestationRoundTrip` | sdk/src/lastSwapAttestation.ts:76-103 | parsing a built last-swap message gives back the attestation |
| `Attestation.AttestationLayout` | sdk/src/lastSwapAttestation.ts:76-103 | where each field of the message stands |
| `Attestation.EveryMessageIsBuilt` | sdk/src/lastSwapAttestation.ts:76-103 | and any 112 bytes are the message of what they parse to |
| `Attestation.ChainAcceptsBuiltAttestation` | programs/grave-scanner/src/attestation.rs:378-411 | the chain accepts a built message exactly when it names the pool, its time and slot are positive and not ahead, and the slot's first hash is the attested one |
| `Attestation.LastSwapIff` | programs/grave-scanner/src/attestation.rs:466-488 | for any transaction and message bytes: accepted exactly when the instruction before is the ed25519 program's, with data that agrees with the builder's for the oracle, the span 72/112 and this instruction's index, the instruction data holds the span, and the message testifies about the pool; the result is the message's time |
| `Attestation.StaleIff` | programs/grave-scanner/src/attestation.rs:396-411 | for any message bytes: stale exactly when no entry of SlotHashes is for its slot, of another fork exactly when the first one has another hash |
| `Attestation.LaunchPriceRoundTrip` | sdk/src/launchPriceAttestation.ts:99-129 | parsing a built launch-price message gives back the attestation |
| `Attestation.LaunchPriceLayout` | sdk/src/launchPriceAttestation.ts:99-129 | where each field of the message stands |
| `Attestation.ChainAcceptsBuiltLaunchPrice` | programs/grave-scanner/src/attestation.rs:554-595 | the chain accepts a built baseline exactly when pool, mints and price match and its times and slots are positive and not ahead |
| `Attestation.LaunchPriceIff` | programs/grave-scanner/src/attestation.rs:608-628 | for any transaction and message bytes: accepted exactly when the launch-price oracle's precompile covers the span 152/168 and the message states the pool, these mints and this positive price, sane in time; the result is what it states |
| `Locker.LockedLpAmount` | programs/grave-scanner/src/adapters/locker.rs:118-234 | the evidence loop with its four accumulators: the sum, or the first refusal, then the marker rules |
| `Locker.ValidateLock` | programs/grave-scanner/src/adapters/locker.rs:166-203 | a lock account counts with its live amount exactly when size, discriminator, address and binding check out |
| `Locker.AcceptsIff` | programs/grave-scanner/src/adapters/locker.rs:118-234 | the scan succeeds exactly when nothing is refused or overflows, the marker is supplied, and it is present exactly when locks are; the total counts each supplied lock with multiplicity |
| `Locker.ScanIsOrderIndependent` | programs/grave-scanner/src/adapters/locker.rs:118-234 | success and total do not depend on the order of the accounts |
| `Locker.DuplicateLockKeepsZero` | programs/grave-scanner/src/adapters/locker.rs:204-209 | supplying an accepted account again fails only by overflow and does not change whether the total is zero |
| `Locker.ParsersAgree` | snapshotter/src/locked.rs:106-163 | the off-chain parser accepts exactly the lock accounts the chain counts, with the same amount |
| `Locker.ScanTotalIsOffChainTotal` | snapshotter/src/locked.rs:106-163 | the on-chain total is the sum over the records parsed off chain, and there are some exactly when the marker is present |
| `Locker.LockedLpIff` | programs/grave-scanner/src/adapters/locker.rs:118-234 | in terms of the accounts: the scan succeeds exactly when every live locker account is readable and is the marker or a bound lock, the sum and count fit, and the marker is supplied, present exactly when locks are; the total is the sum of the parsed locks |
| `Locker.MarkerRules` | programs/grave-scanner/src/adapters/locker.rs:212-233 | with countable accounts, the exact condition of each marker error |
| `Locker.LockRoundTrip` | snapshotter/src/locked.rs:106-163 | an account laid out field by field parses exactly when it stands at its id's address and names this pool and mint, to its id, live amount and owner |
| `Locker.ParsesIff` | snapshotter/src/locked.rs:106-163 | and no other bytes parse |
| `Scanner.Program.DoInitialize` | programs/grave-scanner/src/instructions/initialize.rs:45-108 | assigns every config field with its default or floor, once |
| `Scanner.Program.DoUpdateConfig` | programs/grave-scanner/src/instructions/update_protocol_config.rs:48-53 | the authority's update, or no trace of it |
| `Scanner.Program.ApplyConfigUpdate` | programs/grave-scanner/src/instructions/update_protocol_config.rs:62-108 | field by field with early return: the updated config, or the first bound violated |
| `Scanner.Program.DoEmergencyPause` | programs/grave-scanner/src/instructions/emergency_pause.rs:39-59 | toggles the pause, for the authority, and refuses a toggle to the current value |
| `Scanner.Program.DoRecordLaunchPrice` | programs/grave-scanner/src/instructions/record_launch_price.rs:90-137 | records an attested baseline for a pool that has none |
| `Scanner.Program.EvaluatePoolPhase1` | programs/grave-scanner/src/instructions/evaluate_pool_phase1.rs:87-184 | collects the evidence, evaluates and writes a fresh anchor, or changes nothing |
| `Scanner.Program.EvaluatePoolPhase2` | programs/grave-scanner/src/instructions/evaluate_pool_phase2.rs:114-244 | re-evaluates against the anchor and writes the cert, or changes nothing |
| `Scanner.Program.WriteCert` | programs/grave-scanner/src/instructions/evaluate_pool_phase2.rs:198-230 | the reissue gate and the rewritten fields; a live cert, an overflowing expiry and a full counter are refused |
| `Scanner.Program.DoInvalidateAnchor` | programs/grave-scanner/src/instructions/invalidate_anchor.rs:58-80 | sets the flag once, for the authority |
| `Scanner.Program.DoSweepStaleAnchor` | programs/grave-scanner/src/instructions/sweep_stale_anchor.rs:49-66 | closes the anchor past its window, with its writer named |
| `ScannerInstructions.GatherIff` | programs/grave-scanner/src/instructions/evaluate_pool_phase1.rs:98-156 | the evidence is collected exactly when the oracle's precompile covers a testifying message, the pool is readable, has a price and has the baseline's mints, and the locks are shown completely; every input of the criteria is then the message's time, the clock's, the baseline's price, the exact price, the quote reserve, the supply and the sum of the supplied locks |
| `ScannerInstructions.PassesIffDead` | programs/grave-scanner/src/instructions/evaluate_pool_phase1.rs:98-163 | and passes the criteria exactly when, in the configuration's fields, it shows a pool inactive, collapsed, above the TVL floor, not burned, with no LP locked |
| `ScannerInstructions.Phase1AnchorsIff` | programs/grave-scanner/src/instructions/evaluate_pool_phase1.rs:87-184 | Phase 1 anchors exactly a pool without an anchor and with a baseline, while running, whose evidence shows it dead; and its whole effect |
| `ScannerInstructions.Phase2CertifiesIff` | programs/grave-scanner/src/instructions/evaluate_pool_phase2.rs:114-244 | in a reachable state Phase 2 certifies exactly a pool whose anchor is struck by nobody and two epochs old, whose evidence of now shows it dead, with no cert live and room for expiry and generation |
| `ScannerInstructions.RecordsIff` | programs/grave-scanner/src/instructions/record_launch_price.rs:90-137 | a baseline is recorded exactly when there is none and the configured launch-price oracle signed a message that states it; each field is the message's |
| `ScannerInstructions.SweepGateIff` | programs/grave-scanner/src/instructions/sweep_stale_anchor.rs:75-104 | open exactly when the epochs since the stamp's own, in seconds, reach the window: the configured one, at least 518400 seconds, at most the whole epochs that fit `u64`; `MathOverflow` exactly when no `u64` epoch could be late enough |
| `ScannerInstructions.DefaultWindow` | programs/grave-scanner/src/instructions/sweep_stale_anchor.rs:75-104 | by default from the eighth epoch after the stamp on |
| `ScannerInstructions.SweepsIff` | programs/grave-scanner/src/instructions/sweep_stale_anchor.rs:49-66 | a sweep succeeds exactly with the anchor there, its writer named and the window over, and removes that anchor only |
| `ScannerInstructions.InvalidatesIff` | programs/grave-scanner/src/instructions/invalidate_anchor.rs:58-80 | only the authority, and only once, sets the flag; nothing else changes |
| `ScannerInstructions.InvalidationBars` | programs/grave-scanner/src/instructions/invalidate_anchor.rs:58-80 | after the instruction succeeds no continuation certifies the pool in an epoch below the stamp plus six |
| `ScannerInstructions.PausesIff` | programs/grave-scanner/src/instructions/emergency_pause.rs:39-59 | only the authority, and only to the other state; nothing else changes |
| `ScannerInstructions.PauseBars` | programs/grave-scanner/src/instructions/emergency_pause.rs:39-59 | after the authority pauses, nothing is anchored, certified or recorded until it resumes |
| `ScannerInstructions.InitializesIff` | programs/grave-scanner/src/instructions/initialize.rs:45-108 | when it succeeds, and which parameter or default each field takes, in numbers |
| `ScannerInstructions.UpdatesIff` | programs/grave-scanner/src/instructions/update_protocol_config.rs:48-108 | when it succeeds, and that each parameter reaches its own field and no other |
| `ScannerRuns.StalenessEpochsIsCappedCeiling` | programs/grave-scanner/src/instructions/sweep_stale_anchor.rs:86-92 | the saturating division is the true ceiling, capped at its saturating edge |
| `ScannerRuns.StalenessEpochsMonotone` | programs/grave-scanner/src/constants.rs:76-77 | the window is at least three epochs and grows with the configured one |
| `ScannerRuns.SweepGateMonotone` | programs/grave-scanner/src/instructions/sweep_stale_anchor.rs:75-104 | a wider window never lets a sweep happen earlier |
| `ScannerRuns.Phase1Effect` | programs/grave-scanner/src/instructions/evaluate_pool_phase1.rs:163-174 | a successful Phase 1 adds one anchor, stamped with the epoch, with the full mask, and changes nothing else |
| `ScannerRuns.Phase2Effect` | programs/grave-scanner/src/instructions/evaluate_pool_phase2.rs:188-230 | a successful Phase 2 writes one cert, two epochs past its anchor, after its predecessor expired, and changes nothing else |
| `ScannerRuns.AnchorEffect` | programs/grave-scanner/src/state/eligibility_anchor.rs:51-108 | an anchor is only ever written when absent, invalidated, swept four epochs on, or left alone |
| `ScannerRuns.ClockAndConfigEffect` | programs/grave-scanner/src/instructions/update_protocol_config.rs:76-99 | no step lowers a floor, changes the authority or turns the epoch back |
| `ScannerRuns.InvRun` | programs/grave-scanner/src/instructions/evaluate_pool_phase2.rs:114-244 | the invariant (floors, full-mask anchors not from the future, cert accounts that are the last entry of a well-formed issue history) survives every run |
| `ScannerRuns.EveryIssuedCertIsSound` | programs/grave-scanner/src/instructions/evaluate_pool_phase2.rs:188-230 | every cert ever issued has mask 0x3F, the two-epoch gap and at least 600 seconds; every reachable config keeps both floors |
| `ScannerPedigree.AnchorPedigree` | programs/grave-scanner/src/instructions/evaluate_pool_phase1.rs:87-184 | an anchor that stands was written by a Phase 1 of the run, in its stamp's epoch, and has stood untouched since; that Phase 1's evidence showed the pool dead: the activity oracle configured then signed its message, and the locks supplied summed to zero |
| `ScannerPedigree.EveryCertHasPedigree` | programs/grave-scanner/src/instructions/evaluate_pool_phase2.rs:114-244 | behind every cert of a run: a Phase 1 whose evidence showed the pool dead, in the cert's anchor epoch; a later Phase 2 whose own evidence showed it dead again, at least two epochs on, in the cert's epoch and at its issue time, each with a message of the activity oracle configured then and no LP locked; and the anchor standing between them, neither invalidated nor swept |
| `ScannerPedigree.BaselinePedigree` | programs/grave-scanner/src/instructions/record_launch_price.rs:90-137 | every baseline of a run was recorded by one of its actions, from a message of the launch-price oracle configured then that states its every field, and stands as recorded |
| `ScannerRuns.BitmapMismatchIsUnreachable` | programs/grave-scanner/src/instructions/evaluate_pool_phase2.rs:190-196 | every reachable anchor has mask 0x3F, and Phase 2 never fails with `CriteriaBitmapMismatch` |
| `ScannerRuns.InvalidationHolds` | programs/grave-scanner/src/instructions/invalidate_anchor.rs:58-70 | after an anchor stamped at `f` is invalidated no continuation certifies the pool in an epoch below `f + 6` |
| `ScannerRuns.AnchorOutlivesGap` | programs/grave-scanner/src/instructions/sweep_stale_anchor.rs:75-104 | whatever the config becomes, an anchor stamped at `f` is there, unchanged but for invalidation, through epoch `f + 3` |
| `ScannerRuns.Phase2WindowIsOpen` | programs/grave-scanner/src/instructions/update_protocol_config.rs:79-87 | so in epochs `f + 2` and `f + 3` the Phase 2 instruction never fails for a missing anchor or the epoch gap, and evidence passes it exactly when it meets Phase 1's criteria |
| `ScannerRuns.ValidityWindowsAreDisjoint` | programs/grave-scanner/src/state/eligibility_cert.rs:86-100 | one pool's validity windows are disjoint and in order, and generation `g` comes at least `600 (g - 1)` seconds after the first, whatever the TTL became |
| `ScannerRuns.LaunchPriceIsForever` | programs/grave-scanner/src/instructions/record_launch_price.rs:61-88 | a recorded baseline never changes |
| `ScannerRuns.PauseHolds` | programs/grave-scanner/src/instructions/emergency_pause.rs:39-59 | while the authority does not unpause, nothing is anchored, certified or recorded |
| `ScannerRuns.Phase2IssuesIff` | programs/grave-scanner/src/instructions/evaluate_pool_phase2.rs:114-244 | in a reachable state, exactly when Phase 2 issues, in terms of the issue history |
| `ScannerSweep.LiveIffMinted` | programs/grave-scanner/src/state/eligibility_cert.rs:86-100 | over any run, a cert is live at a time exactly when some Phase 2 of the run minted one, by its clock and TTL, for a window past that time |
| `ScannerSweep.SweepLeavesLiveCertIff` | programs/grave-scanner/src/instructions/sweep_stale_anchor.rs:7-15 | a sweep leaves a live cert exactly when some Phase 2 of the run came less than its TTL before; a live cert of the very anchor it closes exactly when such a Phase 2 used that anchor |
| `ScannerSweep.SweepAfterPhase2LeavesLiveCert` | programs/grave-scanner/src/instructions/sweep_stale_anchor.rs:7-15 | once Phase 2 has issued in an epoch open to sweeping, the sweep goes through and leaves that cert live |
| `ScannerWitness.SweptAnchorCanLeaveALiveCert` | programs/grave-scanner/src/instructions/sweep_stale_anchor.rs:7-15 | a whole run from genesis, with concrete evidence, that ends with an anchor swept and the cert minted from it live |
| `Borsh.NumberRoundTrip` | sdk/src/borsh.ts:116-143 | masking off and shifting out bytes and folding them back is the identity on every integer type, negative `i64` and `i128` included |
| `Borsh.BorshWriter.Put` | sdk/src/borsh.ts:122-127 | the byte loop appends the low bytes and leaves what was written |
| `Borsh.BorshWriter.Write` | sdk/src/borsh.ts:46-161 | any nested write leaves the whole buffer determined: what was there, then the parts written before the first error, then the rest untouched; and throws that error, range before overflow |
| `Borsh.BorshWriter.Done` | sdk/src/borsh.ts:162-169 | returns the buffer exactly when every byte was filled |
| `Borsh.AttemptIff` | sdk/src/borsh.ts:54-60 | a write succeeds exactly when everything in it is in range and its encoding fits the room, leaving that encoding; otherwise it leaves a prefix of it |
| `Borsh.AttemptErrors` | sdk/src/borsh.ts:46-161 | a write overflows only when its encoding is too long for the room, and is out of range only when something in it is |
| `Borsh.Fill` | sdk/src/borsh.ts:13-16 | a sequence of writes and `done()` succeed exactly when every value is in range and the encodings add up to the declared size, and then give their concatenation |
| `Borsh.BorshReader.Fold` | sdk/src/borsh.ts:247-257 | the descending loop reads the little-endian number |
| `Borsh.BorshReader.Read` | sdk/src/borsh.ts:197-294 | reading by a schema gives the decoded value and position, or the first error |
| `Borsh.Recover` | sdk/src/borsh.ts:197-294 | and so for one read after another |
| `Borsh.RoundTrip` | sdk/src/borsh.ts:46-294 | a value read where it was written is that value, wherever it stands; the reader refuses it exactly when some vector in it is longer than 0x1000000 |
| `Borsh.RecordRoundTrip` | sdk/src/borsh.ts:46-294 | and so for a record, field by field and to its last byte |
| `Borsh.TruncatedIsRefused` | sdk/src/borsh.ts:197-294 | a value cut off before its end is never read: the reader runs out, unless some vector in it is over the limit |
| `Borsh.ExtensionKeeps` | sdk/src/borsh.ts:197-294 | a read that does not run out gives the same on every longer buffer |
| `Borsh.ReadIsSpelled` | sdk/src/borsh.ts:197-294 | whatever the bytes, a value that is read is in range, of the schema's type and within the vector limit, and writing it gives the bytes read, with 1 for every tag that was set |

## Left out

- SHA-256, base58, PDA derivation and curve checks: uninterpreted; the hash and the addresses are parameters.
- Signature validity: the precompile has checked it before the scanner runs; what is proved is which bytes it covers.
- Settlement, claims, dust sweeping and the vault's state: not modelled beyond the proof fold that they call.
- Reading a pool's own bytes (the Raydium V4 adapter) and the stub adapters: what an adapter extracts, or its error, is an input of each evaluation.
- The instructions sysvar: the preceding instruction, the current index and the current data are inputs.
- Anchor's decoding of parameters: the message parameter and the instruction data that the precompile's span points into are two separate inputs here, as they are two separate reads in the source; that they hold the same bytes is Anchor's decoding.
- The SlotHashes sysvar: each evaluation brings its own bytes, and nothing ties them to the slot or to the bytes another evaluation brings; that a Phase 1 attestation has aged out by Phase 2 is not modelled. The runs given as inputs attest afresh, in the slot before, for each phase.
- How fast slots, epochs and the wall clock advance relative to each other: a tick may show any wall clock.
- Account constraints (seeds, existence, `init`): one error, `AccountConstraint`, stands for all of them; addresses of a pool's accounts are the pool itself.
- Events other than `EligibilityCertIssued`, rent, bumps, reserved bytes, `pending_authority`: they influence nothing modelled.
- Message texts of `InvariantViolated` and `ArtifactMismatch`: reduced to what they distinguish.
- JSON, the hex codec and file storage of artifacts: not modelled; `Artifact` is the parsed value.
- Sorting lock records by address (snapshotter/src/locked.rs:218-222): not modelled, since `SnapshotProperties.OrderIndependence` shows that no order of the records matters.
- `BTreeMap`: modelled as a map together with the ascending list of its keys.
- The SDK's exclusion ledger, `uncxMarkerPresent` and served slot, and everything it reads by RPC: not modelled; its Borsh writer takes integers, not `number | string`, and JavaScript's loss of precision past 2^53 is not modelled.
- `seek`, `position` and `remaining` of the Borsh reader: accessors. The reader has no `option`; `OptionOf` is the tag and the value read one after the other.
- Indexer scoring, `evaluatePool` of the SDK, alerting and deployment: no promises shared with the modelled code.
