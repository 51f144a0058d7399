/** What each instruction asks for and does, in terms of its raw inputs: the bytes of the transaction,
    the accounts supplied, the pool's data and the configuration. */
module ScannerInstructions {
  import opened Wrappers
  import opened Bytes
  import opened ScannerErrors
  import opened Criteria
  import opened Attestation
  import opened Locker
  import opened ScannerState
  import opened ScannerRuns

  // ---------------------------------------------------------------- the evidence of an evaluation

  /** The attestation a message spells. */
  function Attested(msg: Message112): (att: LastSwapAttestation)
    ensures BuildAttestationMessage(att) == msg
  {
    EveryMessageIsBuilt(msg);
    ParseAttestationMessage(msg).value
  }

  /** The configured oracle signed, next to this instruction, a message that testifies about the pool. */
  ghost predicate Vouched(c: Config, clock: Clock, pool: Pool, ev: Evaluation) {
    && SpokenBy(ev.tx.before, ev.tx.index, ev.tx.data, c.activityOracle, 72, 112)
    && Testifies(Attested(ev.msg), pool.ammProgramId, pool.address, clock.unixTs, clock.slot, ev.slotHashes)
  }

  /** The pool's data is readable, has a price, and is about the mints of the recorded baseline. */
  predicate Priced(launch: LaunchPrice, poolData: Result<PoolData, AdapterError>) {
    && poolData.Ok? && poolData.value.baseReserve > 0
    && poolData.value.baseMint == launch.baseMint && poolData.value.quoteMint == launch.quoteMint
  }

  ghost predicate ChecksOut(pda: Pda, c: Config, clock: Clock, launch: LaunchPrice, pool: Pool, ev: Evaluation) {
    && Vouched(c, clock, pool, ev) && Priced(launch, ev.poolData)
    && LocksShown(pda, ev.poolData.value.lpMint, pool.address, ev.accounts)
  }

  /** Quote per base as a Q64.64 number, rounded down. */
  function Price(data: PoolData): nat
    requires data.baseReserve > 0
  {
    data.quoteReserve * 0x1_0000_0000_0000_0000 / data.baseReserve
  }

  lemma PriceIff(data: PoolData)
    ensures CurrentPrice(data).Ok? <==> data.baseReserve > 0
    ensures CurrentPrice(data).Ok? ==> CurrentPrice(data).value == Price(data)
  {
    if data.baseReserve > 0 {
      PriceIsExact(data);
    }
  }

  /** Each input of the criteria, from the evidence. */
  ghost predicate Collected(pda: Pda, clock: Clock, launch: LaunchPrice, pool: Pool, ev: Evaluation,
                            anchorEpoch: Option<U64>, i: CriteriaInputs)
    requires Priced(launch, ev.poolData)
  {
    var data := ev.poolData.value;
    && i.lastSwapUnixTs == Attested(ev.msg).lastSwapUnixTs && i.currentUnixTs == clock.unixTs
    && i.launchPrice == launch.price && i.currentPrice == Price(data)
    && i.currentTvl == data.quoteReserve && i.lpSupply == data.lpSupply
    && i.lpLocked == SuppliedTotal(pda, data.lpMint, pool.address, ev.accounts)
    && i.currentEpoch == clock.epoch && i.anchorEpoch == anchorEpoch
  }

  /** The evidence is collected exactly when it checks out. */
  lemma GatherIff(pda: Pda, c: Config, clock: Clock, launch: LaunchPrice, pool: Pool, ev: Evaluation,
                  anchorEpoch: Option<U64>)
    ensures var r := Gather(pda, c, clock, launch, pool, ev, anchorEpoch);
            && (r.Ok? <==> ChecksOut(pda, c, clock, launch, pool, ev))
            && (r.Ok? ==> Collected(pda, clock, launch, pool, ev, anchorEpoch, r.value))
  {
    LastSwapIff(ev.tx.before, ev.tx.index, ev.tx.data, ev.msg, pool.ammProgramId, pool.address, c.activityOracle,
                clock.unixTs, clock.slot, ev.slotHashes);
    if ev.poolData.Ok? {
      PriceIff(ev.poolData.value);
      LockedLpIff(pda, ev.poolData.value.lpMint, pool.address, ev.accounts);
    }
  }

  /** The evidence shows, by the configuration's thresholds, an inactive pool whose price collapsed, with
      TVL worth salvaging, LP not burned, and no LP locked. */
  ghost predicate DeadPool(pda: Pda, c: Config, clock: Clock, launch: LaunchPrice, pool: Pool, ev: Evaluation) {
    && ChecksOut(pda, c, clock, launch, pool, ev)
    && var data := ev.poolData.value;
       && clock.unixTs - Attested(ev.msg).lastSwapUnixTs >= c.inactivitySeconds
       && launch.price > 0
       && (if Price(data) >= launch.price then c.priceCollapseBps == 0
           else c.priceCollapseBps * launch.price <= (launch.price - Price(data)) * 10_000 <= U128_MAX)
       && data.quoteReserve >= c.minTvl
       && data.lpSupply > c.lpBurnDust
       && SuppliedTotal(pda, data.lpMint, pool.address, ev.accounts) == 0
  }

  lemma CollectedIsDead(pda: Pda, c: Config, clock: Clock, launch: LaunchPrice, pool: Pool, ev: Evaluation,
                        anchorEpoch: Option<U64>, i: CriteriaInputs, phase: Phase)
    requires ChecksOut(pda, c, clock, launch, pool, ev)
    requires Collected(pda, clock, launch, pool, ev, anchorEpoch, i)
    ensures Derelict(i, Thresholds(c), phase) <==>
            && DeadPool(pda, c, clock, launch, pool, ev)
            && (phase.Two? ==> anchorEpoch.Some? && clock.epoch >= anchorEpoch.value + 2)
  {
  }

  /** It passes the criteria exactly then, and in Phase 2 with the epoch gap besides. */
  lemma PassesIffDead(pda: Pda, c: Config, clock: Clock, launch: LaunchPrice, pool: Pool, ev: Evaluation,
                      anchorEpoch: Option<U64>, phase: Phase)
    ensures var r := Gather(pda, c, clock, launch, pool, ev, anchorEpoch);
            r.Ok? && EvaluateOutcome(r.value, Thresholds(c), phase).Ok? <==>
            && DeadPool(pda, c, clock, launch, pool, ev)
            && (phase.Two? ==> anchorEpoch.Some? && clock.epoch >= anchorEpoch.value + 2)
  {
    var r := Gather(pda, c, clock, launch, pool, ev, anchorEpoch);
    GatherIff(pda, c, clock, launch, pool, ev, anchorEpoch);
    if r.Ok? {
      CollectedIsDead(pda, c, clock, launch, pool, ev, anchorEpoch, r.value, phase);
      EvaluateIffDerelict(r.value, Thresholds(c), phase);
    }
  }

  // ---------------------------------------------------------------- the two phases

  /** Phase 1 anchors a pool exactly when the program is set up and running, the pool has a baseline and
      no anchor, and the evidence shows it dead. */
  lemma Phase1AnchorsIff(pda: Pda, s: State, pool: Pool, writer: Bytes32, ev: Evaluation)
    ensures var r := Step(pda, s, Phase1(pool, writer, ev));
            && (r.Ok? <==>
                  && s.config.Some? && !s.config.value.paused && pool !in s.anchors && pool in s.launchPrices
                  && DeadPool(pda, s.config.value, s.clock, s.launchPrices[pool], pool, ev))
            && (r.Ok? ==>
                  r.value == s.(anchors :=
                    s.anchors[pool := Anchor(writer, s.clock.epoch, s.clock.unixTs, false, 0x3F)]))
  {
    if s.config.Some? && pool in s.launchPrices {
      PassesIffDead(pda, s.config.value, s.clock, s.launchPrices[pool], pool, ev, None, One);
    }
    if StepPhase1(pda, s, pool, writer, ev).Ok? {
      Phase1Effect(pda, s, pool, writer, ev);
    }
  }

  /** In a reachable state Phase 2 issues a cert exactly when the program is running, the pool has a
      baseline and an anchor that is not invalidated and at least two epochs old, the evidence of now
      shows it dead again, no earlier cert of it is live, and neither the expiry nor the counter
      overflows. */
  lemma Phase2CertifiesIff(pda: Pda, s: State, pool: Pool, writer: Bytes32, ev: Evaluation)
    requires Reachable(pda, s)
    ensures Step(pda, s, Phase2(pool, writer, ev)).Ok? <==>
            && s.config.Some? && !s.config.value.paused
            && pool in s.anchors && !s.anchors[pool].invalidated && pool in s.launchPrices
            && DeadPool(pda, s.config.value, s.clock, s.launchPrices[pool], pool, ev)
            && s.clock.epoch >= s.anchors[pool].firstEligibleEpoch + 2
            && NoLiveCert(s, pool)
            && s.clock.unixTs + s.config.value.certTtl <= I64_MAX
            && |History(s.issued, pool)| < U64_MAX
  {
    Phase2IssuesIff(pda, s, pool, writer, ev);
    if s.config.Some? && pool in s.anchors && pool in s.launchPrices {
      Phase2IsDead(pda, s, pool, ev);
    }
  }

  lemma Phase2IsDead(pda: Pda, s: State, pool: Pool, ev: Evaluation)
    requires s.config.Some? && pool in s.anchors && pool in s.launchPrices
    ensures var inputs := Gather(pda, s.config.value, s.clock, s.launchPrices[pool], pool, ev,
                                 Some(s.anchors[pool].firstEligibleEpoch));
            inputs.Ok? && Derelict(inputs.value, Thresholds(s.config.value), Two) <==>
            && DeadPool(pda, s.config.value, s.clock, s.launchPrices[pool], pool, ev)
            && s.clock.epoch >= s.anchors[pool].firstEligibleEpoch + 2
  {
    var inputs := Gather(pda, s.config.value, s.clock, s.launchPrices[pool], pool, ev,
                         Some(s.anchors[pool].firstEligibleEpoch));
    PassesIffDead(pda, s.config.value, s.clock, s.launchPrices[pool], pool, ev,
                  Some(s.anchors[pool].firstEligibleEpoch), Two);
    if inputs.Ok? {
      EvaluateIffDerelict(inputs.value, Thresholds(s.config.value), Two);
    }
  }

  // ---------------------------------------------------------------- the baseline

  /** The baseline a message spells. */
  function Stated(msg: Message168): (att: LaunchPriceAttestation)
    ensures ParseLaunchPriceMessage(msg) == Some(att)
  {
    ParseLaunchPriceMessage(msg).value
  }

  /** The launch-price oracle signed, next to this instruction, a message that states these parameters. */
  ghost predicate BaselineVouched(c: Config, clock: Clock, pool: Pool, tx: Transaction, p: LaunchParams) {
    && SpokenBy(tx.before, tx.index, tx.data, c.launchPriceOracle, 152, 168)
    && States(Stated(p.msg), pool.ammProgramId, pool.address, p.baseMint, p.quoteMint, p.launchPrice, clock.unixTs,
              clock.slot)
  }

  /** A baseline is recorded exactly for a pool that has none, while the program runs, with the oracle's
      word for it; it is what the message states, and when it was recorded. */
  lemma RecordsIff(pda: Pda, s: State, pool: Pool, tx: Transaction, p: LaunchParams)
    ensures var r := Step(pda, s, RecordLaunchPrice(pool, tx, p));
            var att := Stated(p.msg);
            && (r.Ok? <==>
                  && s.config.Some? && !s.config.value.paused && pool !in s.launchPrices
                  && BaselineVouched(s.config.value, s.clock, pool, tx, p))
            && (r.Ok? ==>
                  r.value == s.(launchPrices := s.launchPrices[pool :=
                    LaunchPrice(att.baseMint, att.quoteMint, att.launchPrice, att.firstSwapSlot, att.firstSwapUnixTs,
                                s.clock.slot, s.clock.unixTs)]))
  {
    if s.config.Some? {
      LaunchPriceIff(tx.before, tx.index, tx.data, p.msg, pool.ammProgramId, pool.address, p.baseMint, p.quoteMint,
                     p.launchPrice, s.config.value.launchPriceOracle, s.clock.unixTs, s.clock.slot);
    }
  }

  // ---------------------------------------------------------------- the sweep

  /** The window in seconds: the configured one, at least three days' worth of epochs, and at most the
      whole epochs that fit `u64` seconds. */
  function Window(configured: U64): nat {
    var floored := if configured < 518_400 then 518_400 else configured;
    if floored > U64_MAX - U64_MAX % 172_800 then U64_MAX - U64_MAX % 172_800 else floored
  }

  lemma StalenessIsWindow(configured: U64)
    ensures (StalenessEpochs(configured) - 1) * 172_800 < Window(configured) <= StalenessEpochs(configured) * 172_800
  {
  }

  /** The gate is open exactly when the epochs that have passed in full since the stamp's own cover the
      window; it overflows exactly when no `u64` epoch ever could. */
  lemma SweepGateIff(stamp: U64, configured: U64, epoch: U64)
    ensures var r := SweepGate(stamp, configured, epoch);
            && (r.Ok? <==> (epoch - stamp - 1) * 172_800 >= Window(configured))
            && (r == Err(MathOverflow) <==> (U64_MAX - stamp) * 172_800 < Window(configured))
            && (r.Err? ==> r.error == MathOverflow || r.error == AnchorNotStale)
  {
    StalenessIsWindow(configured);
  }

  /** With the default window of fourteen days: from the eighth epoch after the stamp on. */
  lemma DefaultWindow(stamp: U64, epoch: U64)
    ensures SweepGate(stamp, DEFAULT_ANCHOR_STALENESS_SECONDS, epoch).Ok? <==> epoch >= stamp + 8
    ensures SweepGate(0, DEFAULT_ANCHOR_STALENESS_SECONDS, 4) == Err(AnchorNotStale)
  {
    SweepGateIff(stamp, DEFAULT_ANCHOR_STALENESS_SECONDS, epoch);
    SweepGateIff(0, DEFAULT_ANCHOR_STALENESS_SECONDS, 4);
  }

  /** A sweep succeeds exactly when the anchor is there, its writer is named and the window is over; it
      takes away that anchor and nothing else. */
  lemma SweepsIff(pda: Pda, s: State, pool: Pool, anchorWriter: Bytes32)
    ensures var r := Step(pda, s, SweepStaleAnchor(pool, anchorWriter));
            && (r.Ok? <==>
                  && s.config.Some? && pool in s.anchors && s.anchors[pool].writer == anchorWriter
                  && (s.clock.epoch - s.anchors[pool].firstEligibleEpoch - 1) * 172_800 >=
                     Window(s.config.value.anchorStaleness))
            && (r.Ok? ==> r.value == s.(anchors := s.anchors - {pool}))
  {
    if s.config.Some? && pool in s.anchors {
      SweepGateIff(s.anchors[pool].firstEligibleEpoch, s.config.value.anchorStaleness, s.clock.epoch);
    }
  }

  // ---------------------------------------------------------------- the authority's instructions

  /** Only the authority strikes an anchor, and once; nothing else changes. */
  lemma InvalidatesIff(pda: Pda, s: State, caller: Bytes32, pool: Pool)
    ensures var r := Step(pda, s, InvalidateAnchor(caller, pool));
            && (r.Ok? <==>
                  && s.config.Some? && pool in s.anchors
                  && caller == s.config.value.authority && !s.anchors[pool].invalidated)
            && (r.Ok? ==>
                  var t := r.value;
                  && t == s.(anchors := t.anchors) && t.anchors.Keys == s.anchors.Keys
                  && t.anchors[pool] == s.anchors[pool].(invalidated := true)
                  && forall other :: other in s.anchors && other != pool ==> t.anchors[other] == s.anchors[other])
  {
  }

  /** From then on no run, whatever its actions, certifies the pool before six epochs past the stamp. */
  lemma InvalidationBars(pda: Pda, s: State, caller: Bytes32, pool: Pool, actions: seq<Action>, i: nat)
    requires Step(pda, s, InvalidateAnchor(caller, pool)).Ok? && pool in s.anchors
    ensures var t := Run(pda, Next(pda, s, InvalidateAnchor(caller, pool)), actions);
            |s.issued| <= i < |t.issued| && t.issued[i].pool == pool ==>
              t.issued[i].cert.certEpoch >= s.anchors[pool].firstEligibleEpoch + 6
  {
    var t := Next(pda, s, InvalidateAnchor(caller, pool));
    InvalidatesIff(pda, s, caller, pool);
    if |t.issued| <= i < |Run(pda, t, actions).issued| && Run(pda, t, actions).issued[i].pool == pool {
      InvalidationHolds(pda, t, actions, pool, i);
    }
  }

  /** Only the authority pauses or resumes, and only to the other state. */
  lemma PausesIff(pda: Pda, s: State, caller: Bytes32, paused: bool)
    ensures var r := Step(pda, s, EmergencyPause(caller, paused));
            && (r.Ok? <==>
                  s.config.Some? && caller == s.config.value.authority && s.config.value.paused == !paused)
            && (r.Ok? ==>
                  && r.value.config.Some? && r.value.config.value.paused == paused
                  && r.value == s.(config := r.value.config)
                  && r.value.config.value == s.config.value.(paused := paused))
  {
  }

  /** Once the authority has paused, nothing is anchored, certified or recorded until it resumes. */
  lemma PauseBars(pda: Pda, s: State, caller: Bytes32, actions: seq<Action>)
    requires Step(pda, s, EmergencyPause(caller, true)).Ok?
    requires forall a :: a in actions ==> Unprivileged(a, caller)
    ensures var t := Run(pda, Next(pda, s, EmergencyPause(caller, true)), actions);
            && t.issued == s.issued && t.certs == s.certs && t.launchPrices == s.launchPrices
            && t.anchors.Keys <= s.anchors.Keys
  {
    PausesIff(pda, s, caller, true);
    PauseHolds(pda, Next(pda, s, EmergencyPause(caller, true)), actions);
  }

  // ---------------------------------------------------------------- configuration

  /** What a parameter of `initialize` becomes: its default where zero. */
  predicate Takes(parameter: int, default: int, field: int) {
    field == if parameter == 0 then default else parameter
  }

  /** The first configuration: ninety days, 99 per cent, half a SOL, a dust bound of a thousand, fourteen
      days and an hour by default; refused under either floor; running, with the authority as both
      oracles. */
  lemma InitializesIff(pda: Pda, s: State, p: InitializeParams)
    ensures var r := Step(pda, s, Initialize(p));
            && (r.Ok? <==>
                  && s.config.None? && (p.anchorStaleness == 0 || p.anchorStaleness >= 518_400)
                  && (p.certTtl == 0 || p.certTtl >= 600))
            && (r.Ok? ==>
                  && r.value.config.Some? && r.value == s.(config := r.value.config)
                  && var c := r.value.config.value;
                     && Takes(p.inactivitySeconds, 7_776_000, c.inactivitySeconds)
                     && Takes(p.priceCollapseBps, 9_900, c.priceCollapseBps)
                     && Takes(p.minTvl, 500_000_000, c.minTvl)
                     && Takes(p.lpBurnDust, 1_000, c.lpBurnDust)
                     && Takes(p.anchorStaleness, 1_209_600, c.anchorStaleness)
                     && Takes(p.certTtl, 3_600, c.certTtl)
                     && c.authority == c.activityOracle == c.launchPriceOracle == p.authority && !c.paused)
  {
  }

  /** A field after an update: the given value, or what it was. */
  predicate Becomes<T(==)>(was: T, change: Option<T>, now: T) {
    now == if change.Some? then change.value else was
  }

  /** Only the authority updates, within the bounds, and every parameter reaches its own field. */
  lemma UpdatesIff(pda: Pda, s: State, caller: Bytes32, p: UpdateParams)
    ensures var r := Step(pda, s, UpdateConfig(caller, p));
            && (r.Ok? <==>
                  && s.config.Some? && caller == s.config.value.authority
                  && (p.priceCollapseBps.Some? ==> p.priceCollapseBps.value <= 10_000)
                  && (p.anchorStaleness.Some? ==> p.anchorStaleness.value >= 518_400)
                  && (p.certTtl.Some? ==> p.certTtl.value >= 600))
            && (r.Ok? ==>
                  && r.value.config.Some? && r.value == s.(config := r.value.config)
                  && var (was, c) := (s.config.value, r.value.config.value);
                     && Becomes(was.inactivitySeconds, p.inactivitySeconds, c.inactivitySeconds)
                     && Becomes(was.priceCollapseBps, p.priceCollapseBps, c.priceCollapseBps)
                     && Becomes(was.minTvl, p.minTvl, c.minTvl)
                     && Becomes(was.lpBurnDust, p.lpBurnDust, c.lpBurnDust)
                     && Becomes(was.anchorStaleness, p.anchorStaleness, c.anchorStaleness)
                     && Becomes(was.certTtl, p.certTtl, c.certTtl)
                     && Becomes(was.activityOracle, p.activityOracle, c.activityOracle)
                     && Becomes(was.launchPriceOracle, p.launchPriceOracle, c.launchPriceOracle)
                     && c.authority == was.authority && c.paused == was.paused)
  {
  }
}
