/** A concrete run: a derelict pool is anchored, certified in the first epoch in which its anchor
    can be swept, and swept, with the cert still valid. It shows that the theorems about runs are
    about something, and that a swept anchor can leave a live cert behind. */
module ScannerWitness {
  import opened Wrappers
  import opened Bytes
  import opened Criteria
  import opened Attestation
  import opened Locker
  import opened ScannerState
  import opened ScannerRuns
  import opened ScannerEvidence

  const PDA := Pda((_: U64) => 1, (_: Bytes32) => 2)
  const POOL := Pool(10, 11)
  const ORACLE: Bytes32 := 7
  const LAUNCH: U128 := 200_000_000_000 * TWO_64
  const START := Clock(0, 1_000_000_000, 1_000)
  const LATER := Clock(8, 1_001_000_000, 4_000_000)

  // One swap, attested afresh for each phase.
  const FOR_PHASE_1 := LastSwapAttestation(10, 11, 1, 999, 99)
  const FOR_PHASE_2 := LastSwapAttestation(10, 11, 1, 3_999_999, 98)
  const FIRST_SWAP := LaunchPriceAttestation(10, 11, 20, 21, 1, 1, LAUNCH, 1)
  const POOL_DATA := PoolData(1, 1_000_000_000, 5_000, 20, 21, 22)

  const CONFIG := Config(ORACLE, DEFAULT_INACTIVITY_SECONDS, DEFAULT_PRICE_COLLAPSE_BPS,
    DEFAULT_MIN_TVL_LAMPORTS, DEFAULT_ANCHOR_STALENESS_SECONDS, DEFAULT_LP_BURN_DUST_THRESHOLD,
    DEFAULT_CERT_TTL_SECONDS, false, ORACLE, ORACLE)

  const RECORDED := LaunchPrice(20, 21, LAUNCH, 1, 1, START.slot, START.unixTs)

  const CONFIGURED := Genesis(START).(config := Some(CONFIG))
  const READY := CONFIGURED.(launchPrices := CONFIGURED.launchPrices[POOL := RECORDED])
  const ANCHORED := READY.(anchors := READY.anchors[POOL := Anchor(3, 0, START.unixTs, false, 0x3F)])
  const WAITED := ANCHORED.(clock := LATER)
  const CERT := Cert(4, 0, LATER.epoch, LATER.unixTs, LATER.unixTs + 3600, 0x3F, 1)
  const CERTIFIED := WAITED.(certs := WAITED.certs[POOL := CERT], issued := WAITED.issued + [Issue(POOL, CERT)])
  const SWEPT := CERTIFIED.(anchors := CERTIFIED.anchors - {POOL})

  function Shown(att: LastSwapAttestation): Evaluation {
    EvidenceFor(PDA, ORACLE, att, POOL_DATA)
  }

  lemma PoolIsDerelict(att: LastSwapAttestation, clock: Clock, anchorEpoch: Option<U64>, phase: Phase)
    requires att.lastSwapUnixTs == 1 && clock.unixTs >= 1_000_000_000
    requires phase.Two? ==> anchorEpoch.Some? && clock.epoch >= anchorEpoch.value + 2
    ensures EvaluateOutcome(Inputs(att, POOL_DATA, LAUNCH, clock, anchorEpoch), Thresholds(CONFIG), phase) ==
            Ok(0x3F)
  {
    PriceIsExact(POOL_DATA);
    EvaluateIffDerelict(Inputs(att, POOL_DATA, LAUNCH, clock, anchorEpoch), Thresholds(CONFIG), phase);
  }

  lemma SetUp()
    ensures Step(PDA, Genesis(START), Initialize(InitializeParams(ORACLE, 0, 0, 0, 0, 0, 0))) ==
            Ok(CONFIGURED)
  {
  }

  lemma RecordIt()
    ensures StepRecord(CONFIGURED, POOL, SignedLaunchPrice(ORACLE), Launch(FIRST_SWAP)) == Ok(READY)
  {
    BaselineChecksOut(ORACLE, FIRST_SWAP, START);
    RecordSucceeds(CONFIGURED, POOL, SignedLaunchPrice(ORACLE), Launch(FIRST_SWAP), LAUNCH, 1, 1);
  }

  lemma AnchorIt()
    ensures Step(PDA, READY, Phase1(POOL, 3, Shown(FOR_PHASE_1))) == Ok(ANCHORED)
  {
    EvidenceGathers(PDA, CONFIG, START, RECORDED, FOR_PHASE_1, POOL_DATA, None);
    PoolIsDerelict(FOR_PHASE_1, START, None, One);
    Phase1Succeeds(PDA, READY, POOL, 3, Shown(FOR_PHASE_1));
  }

  lemma WaitIt()
    ensures Step(PDA, ANCHORED, Tick(LATER)) == Ok(WAITED)
  {
  }

  lemma CertifyIt()
    ensures Step(PDA, WAITED, Phase2(POOL, 4, Shown(FOR_PHASE_2))) == Ok(CERTIFIED)
  {
    EvidenceGathers(PDA, CONFIG, LATER, RECORDED, FOR_PHASE_2, POOL_DATA, Some(0));
    PoolIsDerelict(FOR_PHASE_2, LATER, Some(0), Two);
    Phase2Succeeds(PDA, WAITED, POOL, 4, Shown(FOR_PHASE_2), CERT);
  }

  lemma SweepWhileLive()
    ensures Step(PDA, CERTIFIED, SweepStaleAnchor(POOL, 3)) == Ok(SWEPT)
    ensures !IsExpired(CERT, LATER.unixTs)
  {
    assert StalenessEpochs(DEFAULT_ANCHOR_STALENESS_SECONDS) == 7;
  }

  const INITIALIZING := [Initialize(InitializeParams(ORACLE, 0, 0, 0, 0, 0, 0))]
  const RECORDING := INITIALIZING + [RecordLaunchPrice(POOL, SignedLaunchPrice(ORACLE), Launch(FIRST_SWAP))]
  const ANCHORING := RECORDING + [Phase1(POOL, 3, Shown(FOR_PHASE_1))]
  const WAITING := ANCHORING + [Tick(LATER)]
  const CERTIFYING := WAITING + [Phase2(POOL, 4, Shown(FOR_PHASE_2))]
  const SWEEPING := CERTIFYING + [SweepStaleAnchor(POOL, 3)]

  lemma RunInitialized()
    ensures Run(PDA, Genesis(START), INITIALIZING) == CONFIGURED
  {
    SetUp();
    RunExtends(PDA, Genesis(START), [], Genesis(START),
               Initialize(InitializeParams(ORACLE, 0, 0, 0, 0, 0, 0)), CONFIGURED);
    assert [] + INITIALIZING == INITIALIZING;
  }

  lemma RunRecorded()
    ensures Run(PDA, Genesis(START), RECORDING) == READY
  {
    RunInitialized();
    RecordIt();
    RunRecords(PDA, Genesis(START), INITIALIZING, CONFIGURED, POOL, SignedLaunchPrice(ORACLE), Launch(FIRST_SWAP),
               READY);
  }

  lemma RunAnchored()
    ensures Run(PDA, Genesis(START), ANCHORING) == ANCHORED
  {
    RunRecorded();
    AnchorIt();
    RunExtends(PDA, Genesis(START), RECORDING, READY, Phase1(POOL, 3, Shown(FOR_PHASE_1)), ANCHORED);
  }

  lemma RunWaited()
    ensures Run(PDA, Genesis(START), WAITING) == WAITED
  {
    RunAnchored();
    WaitIt();
    RunExtends(PDA, Genesis(START), ANCHORING, ANCHORED, Tick(LATER), WAITED);
  }

  lemma RunCertified()
    ensures Run(PDA, Genesis(START), CERTIFYING) == CERTIFIED
  {
    RunWaited();
    CertifyIt();
    RunExtends(PDA, Genesis(START), WAITING, WAITED, Phase2(POOL, 4, Shown(FOR_PHASE_2)), CERTIFIED);
  }

  lemma RunSwept()
    ensures Run(PDA, Genesis(START), SWEEPING) == SWEPT
  {
    RunCertified();
    SweepWhileLive();
    RunExtends(PDA, Genesis(START), CERTIFYING, CERTIFIED, SweepStaleAnchor(POOL, 3), SWEPT);
  }

  /** The run, and where it ends: its last action a sweep, no anchor left, and a live cert, minted
      from the anchor that was swept. */
  lemma SweptAnchorCanLeaveALiveCert()
    ensures var t := Run(PDA, Genesis(START), SWEEPING);
            && Reachable(PDA, t)
            && SWEEPING[|SWEEPING| - 1] == SweepStaleAnchor(POOL, 3)
            && POOL !in t.anchors && POOL in t.certs && !IsExpired(t.certs[POOL], t.clock.unixTs)
            && t.certs[POOL].anchorEpoch == CERTIFIED.anchors[POOL].firstEligibleEpoch
  {
    RunSwept();
    SweepWhileLive();
  }
}
