/** Which configurations can anchor or certify anything at all. `initialize` takes thresholds that
    rule every pool out, `update_protocol_config` refuses one of them. */
module ScannerThresholds {
  import opened Wrappers
  import opened Bytes
  import opened ScannerErrors
  import opened Criteria
  import opened Attestation
  import opened Locker
  import opened ScannerState
  import opened ScannerRuns
  import opened ScannerEvidence

  /** Some pool can meet the thresholds: a full collapse leaves no quote to count as TVL, an LP supply
      must exceed the dust bound, and a past swap after the epoch must be long enough ago. */
  predicate CanAnchor(c: Config) {
    && c.priceCollapseBps <= 10_000
    && (c.priceCollapseBps == 10_000 ==> c.minTvl == 0)
    && c.lpBurnDust < U64_MAX
    && c.inactivitySeconds + 1 <= I64_MAX
  }

  /** And a cert issued that late can expire. */
  predicate CanCertify(c: Config) {
    CanAnchor(c) && c.inactivitySeconds + 1 + c.certTtl <= I64_MAX
  }

  ghost predicate Anchors(pda: Pda, s: State, c: Config, pool: Pool, writer: Bytes32, ev: Evaluation) {
    Reachable(pda, s) && s.config == Some(c) && Step(pda, s, Phase1(pool, writer, ev)).Ok?
  }

  ghost predicate Certifies(pda: Pda, s: State, c: Config, pool: Pool, writer: Bytes32, ev: Evaluation) {
    Reachable(pda, s) && s.config == Some(c) && Step(pda, s, Phase2(pool, writer, ev)).Ok?
  }

  // ---------------------------------------------------------------- necessary

  lemma NoPriceNoQuote(data: PoolData)
    requires CurrentPrice(data) == Ok(0)
    ensures data.quoteReserve == 0
  {
    PriceIsExact(data);
    if data.quoteReserve > 0 {
      DivThreshold(data.quoteReserve * TWO_64, data.baseReserve, 1);
    }
  }

  /** The attested swap is after the Unix epoch and not ahead, and price and TVL are one pool's. */
  lemma GatheredFacts(pda: Pda, c: Config, clock: Clock, launch: LaunchPrice, pool: Pool, ev: Evaluation,
                      anchorEpoch: Option<U64>)
    requires Gather(pda, c, clock, launch, pool, ev, anchorEpoch).Ok?
    ensures var i := Gather(pda, c, clock, launch, pool, ev, anchorEpoch).value;
            && 0 < i.lastSwapUnixTs && i.currentUnixTs == clock.unixTs
            && ev.poolData.Ok? && CurrentPrice(ev.poolData.value) == Ok(i.currentPrice)
            && i.currentTvl == ev.poolData.value.quoteReserve
  {
  }

  lemma DerelictNeeds(i: CriteriaInputs, c: Config, phase: Phase, data: PoolData)
    requires Derelict(i, Thresholds(c), phase)
    requires 0 < i.lastSwapUnixTs && CurrentPrice(data) == Ok(i.currentPrice) && i.currentTvl == data.quoteReserve
    ensures CanAnchor(c) && c.inactivitySeconds + 1 <= i.currentUnixTs
  {
    CollapseAtMostWhole(i.launchPrice, i.currentPrice, c.priceCollapseBps);
    if c.priceCollapseBps == 10_000 {
      NoPriceNoQuote(data);
    }
  }

  lemma AnchoringNeeds(pda: Pda, s: State, pool: Pool, writer: Bytes32, ev: Evaluation)
    requires s.config.Some? && Step(pda, s, Phase1(pool, writer, ev)).Ok?
    ensures CanAnchor(s.config.value)
  {
    var c := s.config.value;
    var i := Gather(pda, c, s.clock, s.launchPrices[pool], pool, ev, None);
    GatheredFacts(pda, c, s.clock, s.launchPrices[pool], pool, ev, None);
    EvaluateIffDerelict(i.value, Thresholds(c), One);
    DerelictNeeds(i.value, c, One, ev.poolData.value);
  }

  lemma CertifyingNeeds(pda: Pda, s: State, pool: Pool, writer: Bytes32, ev: Evaluation)
    requires s.config.Some? && Step(pda, s, Phase2(pool, writer, ev)).Ok?
    ensures CanCertify(s.config.value)
  {
    var c, anchorEpoch := s.config.value, Some(s.anchors[pool].firstEligibleEpoch);
    var i := Gather(pda, c, s.clock, s.launchPrices[pool], pool, ev, anchorEpoch);
    GatheredFacts(pda, c, s.clock, s.launchPrices[pool], pool, ev, anchorEpoch);
    EvaluateIffDerelict(i.value, Thresholds(c), Two);
    DerelictNeeds(i.value, c, Two, ev.poolData.value);
  }

  // ---------------------------------------------------------------- sufficient

  const POOL := Pool(0, 0)
  const FIRST_SWAP := LaunchPriceAttestation(0, 0, 0, 0, 1, 1, LARGEST_DROP, 1)
  const START := Clock(0, 1, 1)
  const BASELINE := LaunchPrice(0, 0, LARGEST_DROP, 1, 1, 1, 1)

  /** A pool that collapsed from the highest launch price the arithmetic carries and holds just the
      TVL asked for. */
  function Wreck(c: Config): PoolData {
    PoolData(U64_MAX, c.minTvl, U64_MAX, 0, 0, 0)
  }

  /** Late enough, in one of the first epochs of 432 000 slots. */
  function Late(c: Config, epoch: U64): Clock
    requires CanAnchor(c) && epoch <= 2
  {
    Clock(epoch, c.inactivitySeconds + 1, 432_000 * epoch + 2)
  }

  /** The attestation for that moment, issued in the slot before. */
  function LastSwap(epoch: U64): LastSwapAttestation
    requires epoch <= 2
  {
    LastSwapAttestation(0, 0, 1, 432_000 * epoch + 1, epoch)
  }

  lemma WreckPrice(c: Config)
    ensures CurrentPrice(Wreck(c)).Ok? && CurrentPrice(Wreck(c)).value <= TWO_64
    ensures c.minTvl == 0 ==> CurrentPrice(Wreck(c)).value == 0
  {
    PriceIsExact(Wreck(c));
    var scaled, price := c.minTvl * TWO_64, CurrentPrice(Wreck(c)).value;
    DivThreshold(scaled, U64_MAX, TWO_64 + 1);
    assert scaled < (TWO_64 + 1) * U64_MAX;
  }

  lemma WreckCollapsed(price: U128, bps: U16)
    requires price <= TWO_64 && bps <= 10_000 && (bps == 10_000 ==> price == 0)
    ensures Collapsed(LARGEST_DROP, price, bps)
  {
    if bps < 10_000 {
      MulMonotone(bps, 9_999, LARGEST_DROP);
    }
  }

  lemma WreckIsDerelict(c: Config, epoch: U64, anchorEpoch: Option<U64>, phase: Phase)
    requires CanAnchor(c) && epoch <= 2
    requires phase.Two? ==> anchorEpoch.Some? && epoch >= anchorEpoch.value + 2
    ensures EvaluateOutcome(Inputs(LastSwap(epoch), Wreck(c), LARGEST_DROP, Late(c, epoch), anchorEpoch),
                            Thresholds(c), phase) == Ok(0x3F)
  {
    WreckPrice(c);
    WreckCollapsed(CurrentPrice(Wreck(c)).value, c.priceCollapseBps);
    EvaluateIffDerelict(Inputs(LastSwap(epoch), Wreck(c), LARGEST_DROP, Late(c, epoch), anchorEpoch), Thresholds(c),
                        phase);
  }

  function Configured(c: Config): State {
    Genesis(START).(config := Some(c))
  }

  function Recorded(c: Config): State {
    Configured(c).(launchPrices := Configured(c).launchPrices[POOL := BASELINE])
  }

  function Waited(c: Config): State
    requires CanAnchor(c)
  {
    Recorded(c).(clock := Late(c, 0))
  }

  function Anchored(c: Config): State
    requires CanAnchor(c)
  {
    Waited(c).(anchors := Waited(c).anchors[POOL := Anchor(0, 0, c.inactivitySeconds + 1, false, 0x3F)])
  }

  function WaitedAgain(c: Config): State
    requires CanAnchor(c)
  {
    Anchored(c).(clock := Late(c, 2))
  }

  function Shown(pda: Pda, c: Config, epoch: U64): Evaluation
    requires epoch <= 2
  {
    EvidenceFor(pda, c.activityOracle, LastSwap(epoch), Wreck(c))
  }

  lemma AnchorsWreck(pda: Pda, c: Config)
    requires CanAnchor(c) && !c.paused
    ensures Step(pda, Waited(c), Phase1(POOL, 0, Shown(pda, c, 0))) == Ok(Anchored(c))
  {
    var s := Waited(c);
    assert s.config == Some(c) && s.clock == Late(c, 0) && s.launchPrices[POOL] == BASELINE && POOL !in s.anchors;
    WreckPasses(pda, c);
    Phase1Succeeds(pda, Waited(c), POOL, 0, Shown(pda, c, 0));
  }

  function WreckCert(c: Config): Cert
    requires CanCertify(c)
  {
    Cert(0, 0, 2, c.inactivitySeconds + 1, c.inactivitySeconds + 1 + c.certTtl, 0x3F, 1)
  }

  lemma IssuesWreckCert(c: Config)
    requires CanCertify(c)
    ensures Reissued(CertOf(WaitedAgain(c), POOL), 0, 0, Late(c, 2), c.certTtl, 0x3F) == Ok(WreckCert(c))
  {
  }

  lemma CertifiesWreck(pda: Pda, c: Config)
    requires CanCertify(c) && !c.paused
    ensures Step(pda, WaitedAgain(c), Phase2(POOL, 0, Shown(pda, c, 2))).Ok?
  {
    IssuesWreckCert(c);
    WreckPassesAgain(pda, c);
    Phase2Succeeds(pda, WaitedAgain(c), POOL, 0, Shown(pda, c, 2), WreckCert(c));
  }

  lemma WreckPasses(pda: Pda, c: Config)
    requires CanAnchor(c)
    ensures var inputs := Gather(pda, c, Late(c, 0), BASELINE, POOL, Shown(pda, c, 0), None);
            inputs.Ok? && EvaluateOutcome(inputs.value, Thresholds(c), One) == Ok(0x3F)
  {
    EvidenceGathers(pda, c, Late(c, 0), BASELINE, LastSwap(0), Wreck(c), None);
    WreckIsDerelict(c, 0, None, One);
  }

  lemma WreckPassesAgain(pda: Pda, c: Config)
    requires CanAnchor(c)
    ensures var inputs := Gather(pda, c, Late(c, 2), BASELINE, POOL, Shown(pda, c, 2), Some(0));
            inputs.Ok? && EvaluateOutcome(inputs.value, Thresholds(c), Two) == Ok(0x3F)
  {
    EvidenceGathers(pda, c, Late(c, 2), BASELINE, LastSwap(2), Wreck(c), Some(0));
    WreckIsDerelict(c, 2, Some(0), Two);
  }

  lemma RecordsBaseline(c: Config)
    requires !c.paused
    ensures StepRecord(Configured(c), POOL, SignedLaunchPrice(c.launchPriceOracle), Launch(FIRST_SWAP)) ==
            Ok(Recorded(c))
  {
    BaselineChecksOut(c.launchPriceOracle, FIRST_SWAP, START);
    RecordSucceeds(Configured(c), POOL, SignedLaunchPrice(c.launchPriceOracle), Launch(FIRST_SWAP), LARGEST_DROP, 1, 1);
  }

  /** A run with a run's configuration and nothing else: its configuration changes alone. */
  lemma {:induction false} ReachesConfig(pda: Pda, start: Clock, actions: seq<Action>) returns (alone: seq<Action>)
    ensures Run(pda, Genesis(START), alone) ==
            Genesis(START).(config := Run(pda, Genesis(start), actions).config)
  {
    if actions == [] {
      alone := [];
    } else {
      var init, last := actions[..|actions| - 1], actions[|actions| - 1];
      alone := ReachesConfig(pda, start, init);
      var s := Run(pda, Genesis(start), init);
      ConfigStep(pda, s, last);
      if Next(pda, s, last).config != s.config {
        RunExtends(pda, Genesis(START), alone, Genesis(START).(config := s.config), last,
                   Genesis(START).(config := Next(pda, s, last).config));
        alone := alone + [last];
      }
    }
  }

  /** A step that changes the configuration depends on it alone. */
  lemma ConfigStep(pda: Pda, s: State, a: Action)
    ensures var t, bare := Next(pda, s, a), Genesis(START).(config := s.config);
            t.config != s.config ==> Step(pda, bare, a) == Ok(bare.(config := t.config))
  {
    if a.Phase1? && Step(pda, s, a).Ok? {
      Phase1Effect(pda, s, a.pool, a.writer, a.evaluation);
    } else if a.Phase2? && Step(pda, s, a).Ok? {
      Phase2Effect(pda, s, a.pool, a.writer, a.evaluation);
    }
  }

  /** Some reachable state has this configuration. */
  ghost predicate Reached(pda: Pda, c: Config) {
    exists s: State :: Reachable(pda, s) && s.config == Some(c)
  }

  lemma ReachesConfigured(pda: Pda, c: Config) returns (actions: seq<Action>)
    requires Reached(pda, c)
    ensures Run(pda, Genesis(START), actions) == Configured(c)
  {
    var s: State :| Reachable(pda, s) && s.config == Some(c);
    var start: Clock, history: seq<Action> :| s == Run(pda, Genesis(start), history);
    actions := ReachesConfig(pda, start, history);
  }

  lemma ReachesRecorded(pda: Pda, c: Config) returns (actions: seq<Action>)
    requires Reached(pda, c) && !c.paused
    ensures Run(pda, Genesis(START), actions) == Recorded(c)
  {
    actions := ReachesConfigured(pda, c);
    RecordsBaseline(c);
    RunRecords(pda, Genesis(START), actions, Configured(c), POOL, SignedLaunchPrice(c.launchPriceOracle),
               Launch(FIRST_SWAP), Recorded(c));
    actions := actions + [RecordLaunchPrice(POOL, SignedLaunchPrice(c.launchPriceOracle), Launch(FIRST_SWAP))];
  }

  lemma ReachesWaited(pda: Pda, c: Config) returns (actions: seq<Action>)
    requires Reached(pda, c) && CanAnchor(c) && !c.paused
    ensures Run(pda, Genesis(START), actions) == Waited(c)
  {
    actions := ReachesRecorded(pda, c);
    RunExtends(pda, Genesis(START), actions, Recorded(c), Tick(Late(c, 0)), Waited(c));
    actions := actions + [Tick(Late(c, 0))];
  }

  lemma ReachesAnchored(pda: Pda, c: Config) returns (actions: seq<Action>)
    requires Reached(pda, c) && CanAnchor(c) && !c.paused
    ensures Run(pda, Genesis(START), actions) == Anchored(c)
  {
    actions := ReachesWaited(pda, c);
    AnchorsWreck(pda, c);
    RunExtends(pda, Genesis(START), actions, Waited(c), Phase1(POOL, 0, Shown(pda, c, 0)), Anchored(c));
    actions := actions + [Phase1(POOL, 0, Shown(pda, c, 0))];
  }

  lemma ReachesWaitedAgain(pda: Pda, c: Config) returns (actions: seq<Action>)
    requires Reached(pda, c) && CanAnchor(c) && !c.paused
    ensures Run(pda, Genesis(START), actions) == WaitedAgain(c)
  {
    actions := ReachesAnchored(pda, c);
    RunExtends(pda, Genesis(START), actions, Anchored(c), Tick(Late(c, 2)), WaitedAgain(c));
    actions := actions + [Tick(Late(c, 2))];
  }

  // ---------------------------------------------------------------- exactly

  /** A configuration that some run reaches can anchor something, in some reachable state and with some
      evidence, exactly when it is not paused and `CanAnchor` holds of it. */
  lemma ConfigAnchorsIff(pda: Pda, c: Config)
    requires Reached(pda, c)
    ensures (exists s: State, pool: Pool, writer: Bytes32, ev: Evaluation ::
               Anchors(pda, s, c, pool, writer, ev)) <==>
            CanAnchor(c) && !c.paused
  {
    if CanAnchor(c) && !c.paused {
      var actions := ReachesWaited(pda, c);
      AnchorsWreck(pda, c);
      assert Anchors(pda, Waited(c), c, POOL, 0, Shown(pda, c, 0));
    }
    forall s: State, pool: Pool, writer: Bytes32, ev: Evaluation | Anchors(pda, s, c, pool, writer, ev)
      ensures CanAnchor(c) && !c.paused
    {
      AnchoringNeeds(pda, s, pool, writer, ev);
    }
  }

  /** And certify something exactly when, besides, `CanCertify` does. */
  lemma ConfigCertifiesIff(pda: Pda, c: Config)
    requires Reached(pda, c)
    ensures (exists s: State, pool: Pool, writer: Bytes32, ev: Evaluation ::
               Certifies(pda, s, c, pool, writer, ev)) <==>
            CanCertify(c) && !c.paused
  {
    if CanCertify(c) && !c.paused {
      var actions := ReachesWaitedAgain(pda, c);
      CertifiesWreck(pda, c);
      assert Certifies(pda, WaitedAgain(c), c, POOL, 0, Shown(pda, c, 2));
    }
    forall s: State, pool: Pool, writer: Bytes32, ev: Evaluation | Certifies(pda, s, c, pool, writer, ev)
      ensures CanCertify(c) && !c.paused
    {
      CertifyingNeeds(pda, s, pool, writer, ev);
    }
  }

  lemma InitializedIsReached(pda: Pda, p: InitializeParams)
    requires Initialized(p).Ok?
    ensures Reached(pda, Initialized(p).value)
  {
    var s := Configured(Initialized(p).value);
    RunExtends(pda, Genesis(START), [], Genesis(START), Initialize(p), s);
    assert Reachable(pda, s);
  }

  /** For `initialize` itself, in terms of its parameters: it never sets a zero TVL floor. */
  lemma InitialConfigAnchorsIff(pda: Pda, p: InitializeParams)
    requires Initialized(p).Ok?
    ensures var c := Initialized(p).value;
            (exists s: State, pool: Pool, writer: Bytes32, ev: Evaluation ::
               Anchors(pda, s, c, pool, writer, ev)) <==>
            p.priceCollapseBps < 10_000 && p.lpBurnDust < U64_MAX && p.inactivitySeconds < I64_MAX
  {
    InitializedIsReached(pda, p);
    ConfigAnchorsIff(pda, Initialized(p).value);
  }

  lemma InitialConfigCertifiesIff(pda: Pda, p: InitializeParams)
    requires Initialized(p).Ok?
    ensures var c := Initialized(p).value;
            (exists s: State, pool: Pool, writer: Bytes32, ev: Evaluation ::
               Certifies(pda, s, c, pool, writer, ev)) <==>
            && p.priceCollapseBps < 10_000 && p.lpBurnDust < U64_MAX
            && c.inactivitySeconds + 1 + c.certTtl <= I64_MAX
  {
    InitializedIsReached(pda, p);
    ConfigCertifiesIff(pda, Initialized(p).value);
  }

  lemma BlockedConfig(pda: Pda, s: State, c: Config, pool: Pool, writer: Bytes32, ev: Evaluation)
    requires !CanAnchor(c)
    ensures !Anchors(pda, s, c, pool, writer, ev) && !Certifies(pda, s, c, pool, writer, ev)
  {
    if Anchors(pda, s, c, pool, writer, ev) {
      AnchoringNeeds(pda, s, pool, writer, ev);
    }
    if Certifies(pda, s, c, pool, writer, ev) {
      CertifyingNeeds(pda, s, pool, writer, ev);
    }
  }

  /** `initialize` accepts a collapse threshold above the whole price, which no update may set; with
      it no state anchors or certifies anything. */
  lemma InitializeCanDisableTheProtocol(pda: Pda, clock: Clock, s: State, pool: Pool, writer: Bytes32, ev: Evaluation,
                                        current: Config)
    ensures var p := InitializeParams(7, 0, 10_001, 0, 0, 0, 0);
            && Step(pda, Genesis(clock), Initialize(p)).Ok? && Initialized(p).Ok?
            && Updated(current, UpdateParams(None, Some(10_001), None, None, None, None, None, None)) ==
               Err(InvariantViolation)
            && !Anchors(pda, s, Initialized(p).value, pool, writer, ev)
            && !Certifies(pda, s, Initialized(p).value, pool, writer, ev)
  {
    var p := InitializeParams(7, 0, 10_001, 0, 0, 0, 0);
    BlockedConfig(pda, s, Initialized(p).value, pool, writer, ev);
  }

  const DUST_UPDATE := UpdateParams(None, None, None, None, Some(U64_MAX), None, None, None)
  const COLLAPSE_UPDATE := UpdateParams(None, Some(10_000), None, None, None, None, None, None)

  /** And the authority's updates can do it to any configuration: with a dust bound that no supply
      exceeds, or with a full-collapse threshold over a positive TVL floor. */
  lemma UpdateCanDisableTheProtocol(pda: Pda, s: State, pool: Pool, writer: Bytes32, ev: Evaluation, before: State)
    requires before.config.Some?
    ensures var c := before.config.value;
            && Step(pda, before, UpdateConfig(c.authority, DUST_UPDATE)).Ok?
            && Step(pda, before, UpdateConfig(c.authority, COLLAPSE_UPDATE)).Ok?
            && var dust := Next(pda, before, UpdateConfig(c.authority, DUST_UPDATE)).config.value;
               var collapse := Next(pda, before, UpdateConfig(c.authority, COLLAPSE_UPDATE)).config.value;
               && !Anchors(pda, s, dust, pool, writer, ev) && !Certifies(pda, s, dust, pool, writer, ev)
               && (c.minTvl > 0 ==>
                     !Anchors(pda, s, collapse, pool, writer, ev) && !Certifies(pda, s, collapse, pool, writer, ev))
  {
    var c := before.config.value;
    BlockedConfig(pda, s, Updated(c, DUST_UPDATE).value, pool, writer, ev);
    if c.minTvl > 0 {
      BlockedConfig(pda, s, Updated(c, COLLAPSE_UPDATE).value, pool, writer, ev);
    }
  }
}
