/** Evidence that passes: what an honest oracle signs, the SDK builds and a caller supplies for a
    pool with no locks, and the instructions that succeed with it. */
module ScannerEvidence {
  import opened Wrappers
  import opened Bytes
  import opened Criteria
  import opened Attestation
  import opened Locker
  import opened ScannerState

  /** A transaction whose first instruction is the precompile the SDK builds for `oracle`. */
  function Signed(oracle: Bytes32, msgOffset: nat, msgLen: nat, dataLen: nat): Transaction {
    Transaction(Some(Instruction(ED25519_PROGRAM_ID,
                  Precompile(seq(64, _ => 0), oracle, msgOffset, msgLen, 1))),
                1, seq(dataLen, _ => 0))
  }

  function SignedLastSwap(oracle: Bytes32): Transaction {
    Signed(oracle, IX_DATA_MSG_OFFSET, ATTESTATION_MSG_LEN, IX_DATA_MIN_LEN)
  }

  function SignedLaunchPrice(oracle: Bytes32): Transaction {
    Signed(oracle, LAUNCH_PRICE_MSG_OFFSET, LAUNCH_PRICE_MSG_LEN, LAUNCH_PRICE_IX_MIN_LEN)
  }

  /** The attestation, its slot in SlotHashes, the pool's data and its marker, absent on chain. */
  function EvidenceFor(pda: Pda, oracle: Bytes32, att: LastSwapAttestation, data: PoolData): Evaluation {
    Evaluation(SignedLastSwap(oracle), BuildAttestationMessage(att),
               EncodeSlotHashes([SlotEntry(att.issuedSlot, att.slotHash)]), Ok(data),
               [AccountInfo(pda.marker(att.poolAddress), 0, 0, [], true)])
  }

  predicate Timely(att: LastSwapAttestation, clock: Clock) {
    0 < att.lastSwapUnixTs <= clock.unixTs && 0 < att.issuedSlot <= clock.slot
  }

  lemma AttestationChecksOut(pda: Pda, oracle: Bytes32, att: LastSwapAttestation, data: PoolData, clock: Clock)
    requires Timely(att, clock)
    ensures var ev := EvidenceFor(pda, oracle, att, data);
            VerifyLastSwapAttestation(ev.tx.before, ev.tx.index, ev.tx.data, ev.msg, att.ammProgramId,
              att.poolAddress, oracle, clock.unixTs, clock.slot, ev.slotHashes) == Ok(att.lastSwapUnixTs)
  {
    var entries := [SlotEntry(att.issuedSlot, att.slotHash)];
    BuiltPrecompileIsAccepted(seq(64, _ => 0), oracle, 1, SignedLastSwap(oracle).data, IX_DATA_MSG_OFFSET,
                              ATTESTATION_MSG_LEN, IX_DATA_MIN_LEN);
    assert FirstMatch(entries, att.issuedSlot, 0, 0);
    ChainAcceptsBuiltAttestation(att, att.ammProgramId, att.poolAddress, clock.unixTs, clock.slot, entries);
  }

  lemma NothingIsLocked(pda: Pda, mint: Bytes32, pool: Bytes32)
    ensures LockedLp(pda, mint, pool, [AccountInfo(pda.marker(pool), 0, 0, [], true)]) == Ok(0)
  {
    var vs := Verdicts(pda, mint, pool, [AccountInfo(pda.marker(pool), 0, 0, [], true)]);
    assert vs == [AbsentMarker];
    LastSum(vs);
    assert AbsentMarker in vs && PresentMarker !in vs && NoneRefused(vs);
    AcceptsIff(vs);
  }

  /** The criteria's inputs for such evidence. */
  function Inputs(att: LastSwapAttestation, data: PoolData, launchPrice: U128, clock: Clock,
                  anchorEpoch: Option<U64>): CriteriaInputs
    requires data.baseReserve > 0
  {
    PriceIsExact(data);
    CriteriaInputs(att.lastSwapUnixTs, clock.unixTs, launchPrice, CurrentPrice(data).value, data.quoteReserve,
                   data.lpSupply, 0, clock.epoch, anchorEpoch)
  }

  lemma EvidenceGathers(pda: Pda, c: Config, clock: Clock, launch: LaunchPrice, att: LastSwapAttestation,
                        data: PoolData, anchorEpoch: Option<U64>)
    requires Timely(att, clock) && data.baseReserve > 0
    requires launch.baseMint == data.baseMint && launch.quoteMint == data.quoteMint
    ensures Gather(pda, c, clock, launch, Pool(att.ammProgramId, att.poolAddress),
                   EvidenceFor(pda, c.activityOracle, att, data), anchorEpoch) ==
            Ok(Inputs(att, data, launch.price, clock, anchorEpoch))
  {
    AttestationChecksOut(pda, c.activityOracle, att, data, clock);
    NothingIsLocked(pda, data.lpMint, att.poolAddress);
    PriceIsExact(data);
  }

  function Launch(att: LaunchPriceAttestation): LaunchParams {
    LaunchParams(att.baseMint, att.quoteMint, att.launchPrice, BuildLaunchPriceMessage(att))
  }

  lemma BaselineChecksOut(oracle: Bytes32, att: LaunchPriceAttestation, clock: Clock)
    requires att.launchPrice > 0 && 0 < att.firstSwapUnixTs <= clock.unixTs
    requires 0 < att.firstSwapSlot <= clock.slot && 0 < att.issuedSlot <= clock.slot
    ensures var tx := SignedLaunchPrice(oracle);
            VerifyLaunchPriceAttestation(tx.before, tx.index, tx.data, Launch(att).msg, att.ammProgramId,
              att.poolAddress, att.baseMint, att.quoteMint, att.launchPrice, oracle, clock.unixTs, clock.slot) ==
            Ok((att.launchPrice, att.firstSwapSlot, att.firstSwapUnixTs))
  {
    BuiltPrecompileIsAccepted(seq(64, _ => 0), oracle, 1, SignedLaunchPrice(oracle).data, LAUNCH_PRICE_MSG_OFFSET,
                              LAUNCH_PRICE_MSG_LEN, LAUNCH_PRICE_IX_MIN_LEN);
    ChainAcceptsBuiltLaunchPrice(att, att.ammProgramId, att.poolAddress, att.baseMint, att.quoteMint,
                                 att.launchPrice, clock.unixTs, clock.slot);
  }

  // ---------------------------------------------------------------- instructions that succeed

  lemma RecordSucceeds(s: State, pool: Pool, tx: Transaction, p: LaunchParams, price: U128, slot: U64, ts: I64)
    requires s.config.Some? && !s.config.value.paused && pool !in s.launchPrices
    requires VerifyLaunchPriceAttestation(tx.before, tx.index, tx.data, p.msg, pool.ammProgramId, pool.address,
               p.baseMint, p.quoteMint, p.launchPrice, s.config.value.launchPriceOracle,
               s.clock.unixTs, s.clock.slot) == Ok((price, slot, ts))
    ensures StepRecord(s, pool, tx, p) == Ok(s.(launchPrices := s.launchPrices[pool :=
              LaunchPrice(p.baseMint, p.quoteMint, price, slot, ts, s.clock.slot, s.clock.unixTs)]))
  {
  }

  lemma Phase1Succeeds(pda: Pda, s: State, pool: Pool, writer: Bytes32, ev: Evaluation)
    requires s.config.Some? && !s.config.value.paused && pool !in s.anchors && pool in s.launchPrices
    requires var inputs := Gather(pda, s.config.value, s.clock, s.launchPrices[pool], pool, ev, None);
             inputs.Ok? && EvaluateOutcome(inputs.value, Thresholds(s.config.value), One) == Ok(0x3F)
    ensures Step(pda, s, Phase1(pool, writer, ev)) ==
            Ok(s.(anchors := s.anchors[pool := Anchor(writer, s.clock.epoch, s.clock.unixTs, false, 0x3F)]))
  {
  }

  lemma Phase2Succeeds(pda: Pda, s: State, pool: Pool, writer: Bytes32, ev: Evaluation, cert: Cert)
    requires s.config.Some? && !s.config.value.paused && pool in s.anchors && pool in s.launchPrices
    requires !s.anchors[pool].invalidated && s.anchors[pool].bitmap == 0x3F
    requires var inputs := Gather(pda, s.config.value, s.clock, s.launchPrices[pool], pool, ev,
                                  Some(s.anchors[pool].firstEligibleEpoch));
             inputs.Ok? && EvaluateOutcome(inputs.value, Thresholds(s.config.value), Two) == Ok(0x3F)
    requires Reissued(CertOf(s, pool), writer, s.anchors[pool].firstEligibleEpoch, s.clock,
                      s.config.value.certTtl, 0x3F) == Ok(cert)
    ensures Step(pda, s, Phase2(pool, writer, ev)) ==
            Ok(s.(certs := s.certs[pool := cert], issued := s.issued + [Issue(pool, cert)]))
  {
  }

  // ---------------------------------------------------------------- runs, one action longer

  lemma RunExtends(pda: Pda, s: State, actions: seq<Action>, t: State, a: Action, u: State)
    requires Run(pda, s, actions) == t && Step(pda, t, a) == Ok(u)
    ensures Run(pda, s, actions + [a]) == u
  {
    assert (actions + [a])[..|actions + [a]| - 1] == actions;
  }

  lemma RunRecords(pda: Pda, s: State, actions: seq<Action>, t: State, pool: Pool, tx: Transaction,
                   p: LaunchParams, u: State)
    requires Run(pda, s, actions) == t && StepRecord(t, pool, tx, p) == Ok(u)
    ensures Run(pda, s, actions + [RecordLaunchPrice(pool, tx, p)]) == u
  {
    RunExtends(pda, s, actions, t, RecordLaunchPrice(pool, tx, p), u);
  }
}
