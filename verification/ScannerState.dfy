/** GraveScanner's accounts and what each instruction does to them. Every instruction either
    yields the next state or an error, and an error reverts everything. */
module ScannerState {
  import opened Wrappers
  import opened Bytes
  import opened ScannerErrors
  import opened Criteria
  import opened Attestation
  import opened Locker

  const DEFAULT_INACTIVITY_SECONDS: U64 := 90 * 24 * 60 * 60
  const DEFAULT_PRICE_COLLAPSE_BPS: U16 := 9_900
  const DEFAULT_MIN_TVL_LAMPORTS: U64 := 500_000_000
  const DEFAULT_LP_BURN_DUST_THRESHOLD: U64 := 1_000
  const DEFAULT_ANCHOR_STALENESS_SECONDS: U64 := 14 * 24 * 60 * 60
  const DEFAULT_CERT_TTL_SECONDS: I64 := 60 * 60
  const MIN_CERT_TTL_SECONDS: I64 := 600
  const APPROX_EPOCH_DURATION_SECONDS: U64 := 172_800
  const MIN_ANCHOR_STALENESS_SECONDS: U64 := 518_400

  datatype Config = Config(
    authority: Bytes32, inactivitySeconds: U64, priceCollapseBps: U16, minTvl: U64,
    anchorStaleness: U64, lpBurnDust: U64, certTtl: I64, paused: bool,
    activityOracle: Bytes32, launchPriceOracle: Bytes32)

  /** The seeds of a pool's anchor, cert and launch-price accounts. */
  datatype Pool = Pool(ammProgramId: Bytes32, address: Bytes32)

  datatype Anchor = Anchor(
    writer: Bytes32, firstEligibleEpoch: U64, writtenAt: I64, invalidated: bool, bitmap: bv8)

  datatype Cert = Cert(
    writer: Bytes32, anchorEpoch: U64, certEpoch: U64, issuedAt: I64, expiresAt: I64,
    bitmap: bv8, generation: U64)

  datatype LaunchPrice = LaunchPrice(
    baseMint: Bytes32, quoteMint: Bytes32, price: U128, firstSwapSlot: U64, firstSwapUnixTs: I64,
    recordedSlot: U64, recordedAt: I64)

  datatype Clock = Clock(epoch: U64, unixTs: I64, slot: U64)

  /** The `EligibilityCertIssued` event. */
  datatype Issue = Issue(pool: Pool, cert: Cert)

  datatype State = State(
    config: Option<Config>, anchors: map<Pool, Anchor>, certs: map<Pool, Cert>,
    launchPrices: map<Pool, LaunchPrice>, clock: Clock, issued: seq<Issue>)

  datatype InitializeParams = InitializeParams(
    authority: Bytes32, inactivitySeconds: U64, priceCollapseBps: U16, minTvl: U64,
    anchorStaleness: U64, lpBurnDust: U64, certTtl: I64)

  datatype UpdateParams = UpdateParams(
    inactivitySeconds: Option<U64>, priceCollapseBps: Option<U16>, minTvl: Option<U64>,
    anchorStaleness: Option<U64>, lpBurnDust: Option<U64>, certTtl: Option<I64>,
    activityOracle: Option<Bytes32>, launchPriceOracle: Option<Bytes32>)

  datatype LaunchParams = LaunchParams(
    baseMint: Bytes32, quoteMint: Bytes32, launchPrice: U128, msg: Message168)

  /** The rest of the transaction, as the instructions sysvar shows it. */
  datatype Transaction = Transaction(before: Option<Instruction>, index: U16, data: seq<Byte>)

  /** Everything an evaluation is given: the transaction, the attestation, the SlotHashes sysvar,
      what the pool's adapter extracts, and the supplied accounts. */
  datatype Evaluation = Evaluation(
    tx: Transaction, msg: Message112, slotHashes: seq<Byte>,
    poolData: Result<PoolData, AdapterError>, accounts: seq<AccountInfo>)

  /** How the pool adapters refuse an account. */
  datatype AdapterError = Unsupported | Unimplemented | Unparseable

  function AdapterCode(e: AdapterError): ScanError {
    match e
    case Unsupported => UnsupportedAmm
    case Unimplemented => AmmAdapterUnimplemented
    case Unparseable => PoolDataParseError
  }

  datatype Action =
    | Initialize(init: InitializeParams)
    | UpdateConfig(caller: Bytes32, update: UpdateParams)
    | EmergencyPause(caller: Bytes32, paused: bool)
    | RecordLaunchPrice(pool: Pool, tx: Transaction, launch: LaunchParams)
    | Phase1(pool: Pool, writer: Bytes32, evaluation: Evaluation)
    | Phase2(pool: Pool, writer: Bytes32, evaluation: Evaluation)
    | InvalidateAnchor(caller: Bytes32, pool: Pool)
    | SweepStaleAnchor(pool: Pool, anchorWriter: Bytes32)
    | Tick(clock: Clock)

  // ---------------------------------------------------------------- configuration

  function OrDefault(value: U64, default: U64): U64 {
    if value == 0 then default else value
  }

  function Initialized(p: InitializeParams): Result<Config, ScanError> {
    var ttl := if p.certTtl == 0 then DEFAULT_CERT_TTL_SECONDS else p.certTtl;
    if p.anchorStaleness != 0 && p.anchorStaleness < MIN_ANCHOR_STALENESS_SECONDS then Err(InvariantViolation)
    else if ttl < MIN_CERT_TTL_SECONDS then Err(CertTtlBelowMinimum)
    else Ok(Config(p.authority,
              OrDefault(p.inactivitySeconds, DEFAULT_INACTIVITY_SECONDS),
              if p.priceCollapseBps == 0 then DEFAULT_PRICE_COLLAPSE_BPS else p.priceCollapseBps,
              OrDefault(p.minTvl, DEFAULT_MIN_TVL_LAMPORTS),
              OrDefault(p.anchorStaleness, DEFAULT_ANCHOR_STALENESS_SECONDS),
              OrDefault(p.lpBurnDust, DEFAULT_LP_BURN_DUST_THRESHOLD), ttl, false,
              p.authority, p.authority))
  }

  function Replaced<T>(change: Option<T>, current: T): T {
    match change case Some(v) => v case None => current
  }

  function Updated(c: Config, p: UpdateParams): Result<Config, ScanError> {
    if p.priceCollapseBps.Some? && p.priceCollapseBps.value > 10_000 then Err(InvariantViolation)
    else if p.anchorStaleness.Some? && p.anchorStaleness.value < MIN_ANCHOR_STALENESS_SECONDS then
      Err(InvariantViolation)
    else if p.certTtl.Some? && p.certTtl.value < MIN_CERT_TTL_SECONDS then Err(CertTtlBelowMinimum)
    else Ok(Config(c.authority, Replaced(p.inactivitySeconds, c.inactivitySeconds),
              Replaced(p.priceCollapseBps, c.priceCollapseBps), Replaced(p.minTvl, c.minTvl),
              Replaced(p.anchorStaleness, c.anchorStaleness), Replaced(p.lpBurnDust, c.lpBurnDust),
              Replaced(p.certTtl, c.certTtl), c.paused, Replaced(p.activityOracle, c.activityOracle),
              Replaced(p.launchPriceOracle, c.launchPriceOracle)))
  }

  // ---------------------------------------------------------------- the sweep gate

  function Max(a: U64, b: U64): U64 {
    if a < b then b else a
  }

  /** The window in epochs, with the source's saturating ceiling division. */
  function StalenessEpochs(configured: U64): U64 {
    var seconds := Max(configured, MIN_ANCHOR_STALENESS_SECONDS);
    var padded := seconds + (APPROX_EPOCH_DURATION_SECONDS - 1);
    (if padded > U64_MAX then U64_MAX else padded) / APPROX_EPOCH_DURATION_SECONDS
  }

  function SweepGate(firstEligibleEpoch: U64, configured: U64, currentEpoch: U64): Result<(), ScanError> {
    var earliest := firstEligibleEpoch + StalenessEpochs(configured);
    if earliest > U64_MAX then Err(MathOverflow)
    else if currentEpoch <= earliest then Err(AnchorNotStale)
    else Ok(())
  }

  // ---------------------------------------------------------------- evaluation

  function Thresholds(c: Config): CriteriaThresholds {
    CriteriaThresholds(c.inactivitySeconds, c.priceCollapseBps, c.minTvl, c.lpBurnDust)
  }

  /** The inputs of the criteria, collected in the handlers' order. */
  function Gather(pda: Pda, c: Config, clock: Clock, launch: LaunchPrice, pool: Pool, ev: Evaluation,
                  anchorEpoch: Option<U64>): Result<CriteriaInputs, ScanError>
  {
    var ts := VerifyLastSwapAttestation(ev.tx.before, ev.tx.index, ev.tx.data, ev.msg, pool.ammProgramId,
                                        pool.address, c.activityOracle, clock.unixTs, clock.slot, ev.slotHashes);
    if ts.Err? then Err(ts.error)
    else if ev.poolData.Err? then Err(AdapterCode(ev.poolData.error))
    else
      var data := ev.poolData.value;
      if launch.baseMint != data.baseMint || launch.quoteMint != data.quoteMint then Err(LaunchPriceMintMismatch)
      else
        var locked := LockedLp(pda, data.lpMint, pool.address, ev.accounts);
        if locked.Err? then Err(locked.error)
        else
          var price := CurrentPrice(data);
          if price.Err? then Err(price.error)
          else Ok(CriteriaInputs(ts.value, clock.unixTs, launch.price, price.value, data.quoteReserve,
                                 data.lpSupply, locked.value, clock.epoch, anchorEpoch))
  }

  function FirstAnchor(writer: Bytes32, clock: Clock, bitmap: bv8): Anchor {
    Anchor(writer, clock.epoch, clock.unixTs, false, bitmap)
  }

  /** A freshly created cert account. */
  const ZEROED_CERT := Cert(0, 0, 0, 0, 0, 0, 0)

  predicate IsExpired(cert: Cert, now: I64) {
    now >= cert.expiresAt
  }

  function CertOf(s: State, pool: Pool): Cert {
    if pool in s.certs then s.certs[pool] else ZEROED_CERT
  }

  /** The cert Phase 2 writes over `was`. */
  function Reissued(was: Cert, writer: Bytes32, anchorEpoch: U64, clock: Clock, ttl: I64, bitmap: bv8)
      : Result<Cert, ScanError>
  {
    if !IsExpired(was, clock.unixTs) then Err(CertStillValid)
    else if !(I64_MIN <= clock.unixTs + ttl <= I64_MAX) then Err(MathOverflow)
    else if was.generation == U64_MAX then Err(MathOverflow)
    else Ok(Cert(writer, anchorEpoch, clock.epoch, clock.unixTs, clock.unixTs + ttl, bitmap, was.generation + 1))
  }

  // ---------------------------------------------------------------- one step

  function StepPhase1(pda: Pda, s: State, pool: Pool, writer: Bytes32, ev: Evaluation): Result<State, ScanError> {
    if s.config.None? || pool in s.anchors || pool !in s.launchPrices then Err(AccountConstraint)
    else if s.config.value.paused then Err(ProtocolPaused)
    else
      var inputs := Gather(pda, s.config.value, s.clock, s.launchPrices[pool], pool, ev, None);
      if inputs.Err? then Err(inputs.error)
      else
        var bitmap := EvaluateOutcome(inputs.value, Thresholds(s.config.value), One);
        if bitmap.Err? then Err(bitmap.error)
        else Ok(s.(anchors := s.anchors[pool := FirstAnchor(writer, s.clock, bitmap.value)]))
  }

  function StepPhase2(pda: Pda, s: State, pool: Pool, writer: Bytes32, ev: Evaluation): Result<State, ScanError> {
    if s.config.None? || pool !in s.anchors || pool !in s.launchPrices then Err(AccountConstraint)
    else if s.config.value.paused then Err(ProtocolPaused)
    else if s.anchors[pool].invalidated then Err(ScanError.AnchorInvalidated)
    else
      var anchor := s.anchors[pool];
      var inputs := Gather(pda, s.config.value, s.clock, s.launchPrices[pool], pool, ev,
                           Some(anchor.firstEligibleEpoch));
      if inputs.Err? then Err(inputs.error)
      else
        var bitmap := EvaluateOutcome(inputs.value, Thresholds(s.config.value), Two);
        if bitmap.Err? then Err(bitmap.error)
        else if bitmap.value != anchor.bitmap then Err(CriteriaBitmapMismatch)
        else
          var cert := Reissued(CertOf(s, pool), writer, anchor.firstEligibleEpoch, s.clock,
                               s.config.value.certTtl, bitmap.value);
          if cert.Err? then Err(cert.error)
          else Ok(s.(certs := s.certs[pool := cert.value], issued := s.issued + [Issue(pool, cert.value)]))
  }

  function StepRecord(s: State, pool: Pool, tx: Transaction, p: LaunchParams): Result<State, ScanError> {
    if s.config.None? || pool in s.launchPrices then Err(AccountConstraint)
    else if s.config.value.paused then Err(ProtocolPaused)
    else
      var v := VerifyLaunchPriceAttestation(tx.before, tx.index, tx.data, p.msg, pool.ammProgramId,
                 pool.address, p.baseMint, p.quoteMint, p.launchPrice, s.config.value.launchPriceOracle,
                 s.clock.unixTs, s.clock.slot);
      if v.Err? then Err(v.error)
      else Ok(s.(launchPrices := s.launchPrices[pool :=
             LaunchPrice(p.baseMint, p.quoteMint, v.value.0, v.value.1, v.value.2, s.clock.slot, s.clock.unixTs)]))
  }

  function Step(pda: Pda, s: State, a: Action): Result<State, ScanError> {
    match a
    case Initialize(p) =>
      if s.config.Some? then Err(AccountConstraint)
      else (match Initialized(p) case Err(e) => Err(e) case Ok(c) => Ok(s.(config := Some(c))))
    case UpdateConfig(caller, p) =>
      if s.config.None? then Err(AccountConstraint)
      else if s.config.value.authority != caller then Err(Unauthorized)
      else (match Updated(s.config.value, p) case Err(e) => Err(e) case Ok(c) => Ok(s.(config := Some(c))))
    case EmergencyPause(caller, paused) =>
      if s.config.None? then Err(AccountConstraint)
      else if s.config.value.authority != caller then Err(Unauthorized)
      else if s.config.value.paused == paused then Err(InvariantViolation)
      else Ok(s.(config := Some(s.config.value.(paused := paused))))
    case RecordLaunchPrice(pool, tx, p) => StepRecord(s, pool, tx, p)
    case Phase1(pool, writer, ev) => StepPhase1(pda, s, pool, writer, ev)
    case Phase2(pool, writer, ev) => StepPhase2(pda, s, pool, writer, ev)
    case InvalidateAnchor(caller, pool) =>
      if s.config.None? || pool !in s.anchors then Err(AccountConstraint)
      else if s.config.value.authority != caller then Err(Unauthorized)
      else if s.anchors[pool].invalidated then Err(ScanError.AnchorInvalidated)
      else Ok(s.(anchors := s.anchors[pool := s.anchors[pool].(invalidated := true)]))
    case SweepStaleAnchor(pool, anchorWriter) =>
      if s.config.None? || pool !in s.anchors then Err(AccountConstraint)
      else if s.anchors[pool].writer != anchorWriter then Err(Unauthorized)
      else
        (match SweepGate(s.anchors[pool].firstEligibleEpoch, s.config.value.anchorStaleness, s.clock.epoch)
         case Err(e) => Err(e)
         case Ok(_) => Ok(s.(anchors := s.anchors - {pool})))
    case Tick(clock) =>
      // The runtime's clock: epochs and slots never go back; nothing is assumed of the wall clock.
      if clock.epoch < s.clock.epoch || clock.slot < s.clock.slot then Err(InvalidClock)
      else Ok(s.(clock := clock))
  }

  /** A failed instruction leaves no trace. */
  function Next(pda: Pda, s: State, a: Action): State {
    match Step(pda, s, a) case Ok(t) => t case Err(_) => s
  }

  function Run(pda: Pda, s: State, actions: seq<Action>): State {
    if actions == [] then s else Next(pda, Run(pda, s, actions[..|actions| - 1]), actions[|actions| - 1])
  }

  function Genesis(clock: Clock): State {
    State(None, map[], map[], map[], clock, [])
  }
}
