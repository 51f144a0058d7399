/** The instruction handlers as they are written: accounts are read, fields are assigned one by
    one with early returns, and accounts are written back at the end. Each handler is the step
    that `ScannerState` defines; on an error nothing has been written back. */
module Scanner {
  import opened Wrappers
  import opened Bytes
  import opened ScannerErrors
  import opened Criteria
  import opened Attestation
  import opened Locker
  import opened ScannerState

  class Program {
    var config: Option<Config>
    var anchors: map<Pool, Anchor>
    var certs: map<Pool, Cert>
    var launchPrices: map<Pool, LaunchPrice>
    var clock: Clock
    var issued: seq<Issue>

    ghost function View(): State
      reads this
    {
      State(config, anchors, certs, launchPrices, clock, issued)
    }

    constructor (clock: Clock)
      ensures View() == Genesis(clock)
    {
      this.config, this.anchors, this.certs, this.launchPrices := None, map[], map[], map[];
      this.clock, this.issued := clock, [];
    }

    /** `r` and the new state are the outcome of one step from `before`. */
    ghost predicate Does(pda: Pda, before: State, a: Action, r: Result<(), ScanError>)
      reads this
    {
      match Step(pda, before, a)
      case Ok(after) => r == Ok(()) && View() == after
      case Err(e) => r == Err(e) && View() == before
    }

    method DoInitialize(pda: Pda, p: InitializeParams) returns (r: Result<(), ScanError>)
      modifies this
      ensures Does(pda, old(View()), Initialize(p), r)
    {
      if config.Some? {
        return Err(AccountConstraint);
      }
      var cfg := Config(p.authority, 0, 0, 0, 0, 0, 0, false, p.authority, p.authority);
      cfg := cfg.(inactivitySeconds :=
        if p.inactivitySeconds == 0 then DEFAULT_INACTIVITY_SECONDS else p.inactivitySeconds);
      cfg := cfg.(priceCollapseBps :=
        if p.priceCollapseBps == 0 then DEFAULT_PRICE_COLLAPSE_BPS else p.priceCollapseBps);
      cfg := cfg.(minTvl := if p.minTvl == 0 then DEFAULT_MIN_TVL_LAMPORTS else p.minTvl);
      if p.anchorStaleness == 0 {
        cfg := cfg.(anchorStaleness := DEFAULT_ANCHOR_STALENESS_SECONDS);
      } else {
        if p.anchorStaleness < MIN_ANCHOR_STALENESS_SECONDS {
          return Err(InvariantViolation);
        }
        cfg := cfg.(anchorStaleness := p.anchorStaleness);
      }
      cfg := cfg.(lpBurnDust := if p.lpBurnDust == 0 then DEFAULT_LP_BURN_DUST_THRESHOLD else p.lpBurnDust);
      var ttl := if p.certTtl == 0 then DEFAULT_CERT_TTL_SECONDS else p.certTtl;
      if ttl < MIN_CERT_TTL_SECONDS {
        return Err(CertTtlBelowMinimum);
      }
      cfg := cfg.(certTtl := ttl);
      config := Some(cfg);
      r := Ok(());
    }

    method DoUpdateConfig(pda: Pda, caller: Bytes32, p: UpdateParams) returns (r: Result<(), ScanError>)
      modifies this
      ensures Does(pda, old(View()), UpdateConfig(caller, p), r)
    {
      if config.None? {
        return Err(AccountConstraint);
      }
      if config.value.authority != caller {
        return Err(Unauthorized);
      }
      var updated := ApplyConfigUpdate(config.value, p);
      if updated.Err? {
        return Err(updated.error);
      }
      config := Some(updated.value);
      r := Ok(());
    }

    /** Field by field, with an early return at the first bound that is violated. */
    static method ApplyConfigUpdate(current: Config, p: UpdateParams) returns (r: Result<Config, ScanError>)
      ensures r == Updated(current, p)
    {
      var cfg := current;
      if p.inactivitySeconds.Some? {
        cfg := cfg.(inactivitySeconds := p.inactivitySeconds.value);
      }
      if p.priceCollapseBps.Some? {
        if p.priceCollapseBps.value > 10_000 {
          return Err(InvariantViolation);
        }
        cfg := cfg.(priceCollapseBps := p.priceCollapseBps.value);
      }
      if p.minTvl.Some? {
        cfg := cfg.(minTvl := p.minTvl.value);
      }
      if p.anchorStaleness.Some? {
        if p.anchorStaleness.value < MIN_ANCHOR_STALENESS_SECONDS {
          return Err(InvariantViolation);
        }
        cfg := cfg.(anchorStaleness := p.anchorStaleness.value);
      }
      if p.lpBurnDust.Some? {
        cfg := cfg.(lpBurnDust := p.lpBurnDust.value);
      }
      if p.certTtl.Some? {
        if p.certTtl.value < MIN_CERT_TTL_SECONDS {
          return Err(CertTtlBelowMinimum);
        }
        cfg := cfg.(certTtl := p.certTtl.value);
      }
      if p.activityOracle.Some? {
        cfg := cfg.(activityOracle := p.activityOracle.value);
      }
      if p.launchPriceOracle.Some? {
        cfg := cfg.(launchPriceOracle := p.launchPriceOracle.value);
      }
      r := Ok(cfg);
    }

    method DoEmergencyPause(pda: Pda, caller: Bytes32, paused: bool) returns (r: Result<(), ScanError>)
      modifies this
      ensures Does(pda, old(View()), EmergencyPause(caller, paused), r)
    {
      if config.None? {
        return Err(AccountConstraint);
      }
      if config.value.authority != caller {
        return Err(Unauthorized);
      }
      if config.value.paused == paused {
        return Err(InvariantViolation);
      }
      config := Some(config.value.(paused := paused));
      r := Ok(());
    }

    method DoRecordLaunchPrice(pda: Pda, pool: Pool, tx: Transaction, p: LaunchParams)
        returns (r: Result<(), ScanError>)
      modifies this
      ensures Does(pda, old(View()), RecordLaunchPrice(pool, tx, p), r)
    {
      if config.None? || pool in launchPrices {
        return Err(AccountConstraint);
      }
      if config.value.paused {
        return Err(ProtocolPaused);
      }
      var verified := VerifyLaunchPriceAttestation(tx.before, tx.index, tx.data, p.msg, pool.ammProgramId,
        pool.address, p.baseMint, p.quoteMint, p.launchPrice, config.value.launchPriceOracle,
        clock.unixTs, clock.slot);
      if verified.Err? {
        return Err(verified.error);
      }
      var (price, swapSlot, swapTs) := verified.value;
      launchPrices := launchPrices[pool :=
        LaunchPrice(p.baseMint, p.quoteMint, price, swapSlot, swapTs, clock.slot, clock.unixTs)];
      r := Ok(());
    }

    /** The evidence both phases collect, in the handlers' order. */
    method Collect(pda: Pda, cfg: Config, launch: LaunchPrice, pool: Pool, ev: Evaluation,
                   anchorEpoch: Option<U64>) returns (r: Result<CriteriaInputs, ScanError>)
      ensures r == Gather(pda, cfg, clock, launch, pool, ev, anchorEpoch)
    {
      var ts := VerifyLastSwapAttestation(ev.tx.before, ev.tx.index, ev.tx.data, ev.msg, pool.ammProgramId,
        pool.address, cfg.activityOracle, clock.unixTs, clock.slot, ev.slotHashes);
      if ts.Err? {
        return Err(ts.error);
      }
      if ev.poolData.Err? {
        return Err(AdapterCode(ev.poolData.error));
      }
      var data := ev.poolData.value;
      if launch.baseMint != data.baseMint || launch.quoteMint != data.quoteMint {
        return Err(LaunchPriceMintMismatch);
      }
      var locked := LockedLpAmount(pda, data.lpMint, pool.address, ev.accounts);
      if locked.Err? {
        return Err(locked.error);
      }
      var price := CurrentPrice(data);
      if price.Err? {
        return Err(price.error);
      }
      r := Ok(CriteriaInputs(ts.value, clock.unixTs, launch.price, price.value, data.quoteReserve,
                             data.lpSupply, locked.value, clock.epoch, anchorEpoch));
    }

    method EvaluatePoolPhase1(pda: Pda, pool: Pool, writer: Bytes32, ev: Evaluation)
        returns (r: Result<(), ScanError>)
      modifies this
      ensures Does(pda, old(View()), Phase1(pool, writer, ev), r)
    {
      if config.None? || pool in anchors || pool !in launchPrices {
        return Err(AccountConstraint);
      }
      var cfg := config.value;
      if cfg.paused {
        return Err(ProtocolPaused);
      }
      var inputs := Collect(pda, cfg, launchPrices[pool], pool, ev, None);
      if inputs.Err? {
        return Err(inputs.error);
      }
      var bitmap := Evaluate(inputs.value, Thresholds(cfg), One);
      if bitmap.Err? {
        return Err(bitmap.error);
      }
      var anchor := Anchor(0, 0, 0, false, 0);
      anchor := anchor.(writer := writer);
      anchor := anchor.(firstEligibleEpoch := clock.epoch);
      anchor := anchor.(writtenAt := clock.unixTs);
      anchor := anchor.(invalidated := false);
      anchor := anchor.(bitmap := bitmap.value);
      anchors := anchors[pool := anchor];
      r := Ok(());
    }

    method EvaluatePoolPhase2(pda: Pda, pool: Pool, writer: Bytes32, ev: Evaluation)
        returns (r: Result<(), ScanError>)
      modifies this
      ensures Does(pda, old(View()), Phase2(pool, writer, ev), r)
    {
      if config.None? || pool !in anchors || pool !in launchPrices {
        return Err(AccountConstraint);
      }
      var cfg, anchor := config.value, anchors[pool];
      if cfg.paused {
        return Err(ProtocolPaused);
      }
      if anchor.invalidated {
        return Err(ScanError.AnchorInvalidated);
      }
      var inputs := Collect(pda, cfg, launchPrices[pool], pool, ev, Some(anchor.firstEligibleEpoch));
      if inputs.Err? {
        return Err(inputs.error);
      }
      var bitmap := Evaluate(inputs.value, Thresholds(cfg), Two);
      if bitmap.Err? {
        return Err(bitmap.error);
      }
      if bitmap.value != anchor.bitmap {
        return Err(CriteriaBitmapMismatch);
      }
      var cert := WriteCert(if pool in certs then certs[pool] else ZEROED_CERT, writer,
        anchor.firstEligibleEpoch, clock, cfg.certTtl, bitmap.value);
      if cert.Err? {
        return Err(cert.error);
      }
      certs := certs[pool := cert.value];
      issued := issued + [Issue(pool, cert.value)];
      r := Ok(());
    }

    /** The lifecycle gate, then every field of the account. */
    static method WriteCert(was: Cert, writer: Bytes32, anchorEpoch: U64, clock: Clock, ttl: I64, bitmap: bv8)
        returns (r: Result<Cert, ScanError>)
      ensures r == Reissued(was, writer, anchorEpoch, clock, ttl, bitmap)
    {
      if !IsExpired(was, clock.unixTs) {
        return Err(CertStillValid);
      }
      var cert := was;
      cert := cert.(writer := writer);
      cert := cert.(anchorEpoch := anchorEpoch);
      cert := cert.(certEpoch := clock.epoch);
      cert := cert.(issuedAt := clock.unixTs);
      var expires := clock.unixTs + ttl;
      if expires > I64_MAX || expires < I64_MIN {
        return Err(MathOverflow);
      }
      cert := cert.(expiresAt := expires);
      cert := cert.(bitmap := bitmap);
      if cert.generation == U64_MAX {
        return Err(MathOverflow);
      }
      cert := cert.(generation := cert.generation + 1);
      r := Ok(cert);
    }

    method DoInvalidateAnchor(pda: Pda, caller: Bytes32, pool: Pool) returns (r: Result<(), ScanError>)
      modifies this
      ensures Does(pda, old(View()), InvalidateAnchor(caller, pool), r)
    {
      if config.None? || pool !in anchors {
        return Err(AccountConstraint);
      }
      if config.value.authority != caller {
        return Err(Unauthorized);
      }
      if anchors[pool].invalidated {
        return Err(ScanError.AnchorInvalidated);
      }
      anchors := anchors[pool := anchors[pool].(invalidated := true)];
      r := Ok(());
    }

    method DoSweepStaleAnchor(pda: Pda, pool: Pool, anchorWriter: Bytes32) returns (r: Result<(), ScanError>)
      modifies this
      ensures Does(pda, old(View()), SweepStaleAnchor(pool, anchorWriter), r)
    {
      if config.None? || pool !in anchors {
        return Err(AccountConstraint);
      }
      if anchors[pool].writer != anchorWriter {
        return Err(Unauthorized);
      }
      var gate := SweepGate(anchors[pool].firstEligibleEpoch, config.value.anchorStaleness, clock.epoch);
      if gate.Err? {
        return Err(gate.error);
      }
      anchors := anchors - {pool};
      r := Ok(());
    }
  }
}
