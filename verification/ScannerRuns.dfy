/** What holds over every run of the scanner: any interleaving of instructions from anyone, with
    any evidence, any configuration updates and any clock the runtime may show. */
module ScannerRuns {
  import opened Wrappers
  import opened Bytes
  import opened ScannerErrors
  import opened Criteria
  import opened Attestation
  import opened Locker
  import opened ScannerState

  ghost predicate Reachable(pda: Pda, s: State) {
    exists clock: Clock, actions: seq<Action> :: s == Run(pda, Genesis(clock), actions)
  }

  // ---------------------------------------------------------------- the sweep window

  function CeilDiv(a: nat, b: nat): nat
    requires b > 0
  {
    (a + b - 1) / b
  }

  /** The saturating edge: the window in epochs is the true ceiling, capped at the largest whole
      number of epochs that fits `u64` seconds. */
  lemma StalenessEpochsIsCappedCeiling(configured: U64)
    ensures var seconds := Max(configured, MIN_ANCHOR_STALENESS_SECONDS);
            var ceiling := CeilDiv(seconds, APPROX_EPOCH_DURATION_SECONDS);
            var cap := U64_MAX / APPROX_EPOCH_DURATION_SECONDS;
            StalenessEpochs(configured) == if ceiling < cap then ceiling else cap
  {
  }

  /** At least three epochs, whatever was configured, and never shorter for a longer window. */
  lemma StalenessEpochsMonotone(a: U64, b: U64)
    requires a <= b
    ensures 3 <= StalenessEpochs(a) <= StalenessEpochs(b)
  {
  }

  lemma SweepNeedsFourEpochs(stamp: U64, configured: U64, epoch: U64)
    requires SweepGate(stamp, configured, epoch).Ok?
    ensures epoch >= stamp + 4
  {
    StalenessEpochsMonotone(configured, configured);
  }

  /** A wider window never lets a sweep happen earlier. */
  lemma SweepGateMonotone(stamp: U64, a: U64, b: U64, epoch: U64)
    requires a <= b && SweepGate(stamp, b, epoch).Ok?
    ensures SweepGate(stamp, a, epoch).Ok?
  {
    StalenessEpochsMonotone(a, b);
  }

  // ---------------------------------------------------------------- what single steps can do

  lemma Phase1Effect(pda: Pda, s: State, pool: Pool, writer: Bytes32, ev: Evaluation)
    requires StepPhase1(pda, s, pool, writer, ev).Ok?
    ensures var t := StepPhase1(pda, s, pool, writer, ev).value;
            && pool !in s.anchors && pool in t.anchors && !s.config.value.paused
            && t == s.(anchors := s.anchors[pool := t.anchors[pool]])
            && t.anchors[pool] == Anchor(writer, s.clock.epoch, s.clock.unixTs, false, 0x3F)
  {
    var inputs := Gather(pda, s.config.value, s.clock, s.launchPrices[pool], pool, ev, None);
    EvaluateIffDerelict(inputs.value, Thresholds(s.config.value), One);
  }

  lemma Phase2Effect(pda: Pda, s: State, pool: Pool, writer: Bytes32, ev: Evaluation)
    requires StepPhase2(pda, s, pool, writer, ev).Ok?
    ensures var t := StepPhase2(pda, s, pool, writer, ev).value;
            && pool in s.anchors && !s.anchors[pool].invalidated && s.config.Some? && pool in t.certs
            && !s.config.value.paused
            && t == s.(certs := s.certs[pool := t.certs[pool]],
                       issued := s.issued + [Issue(pool, t.certs[pool])])
            && var c := t.certs[pool];
               && c == Cert(writer, s.anchors[pool].firstEligibleEpoch, s.clock.epoch, s.clock.unixTs,
                            s.clock.unixTs + s.config.value.certTtl, 0x3F, CertOf(s, pool).generation + 1)
               && c.certEpoch >= c.anchorEpoch + 2
               && CertOf(s, pool).expiresAt <= c.issuedAt
  {
    var inputs := Gather(pda, s.config.value, s.clock, s.launchPrices[pool], pool, ev,
                         Some(s.anchors[pool].firstEligibleEpoch));
    EvaluateIffDerelict(inputs.value, Thresholds(s.config.value), Two);
  }

  /** Certs and the issue log change in a successful Phase 2 only. */
  lemma OnlyPhase2Issues(pda: Pda, s: State, a: Action)
    ensures var t := Next(pda, s, a);
            (t.certs == s.certs && t.issued == s.issued) ||
            (a.Phase2? && StepPhase2(pda, s, a.pool, a.writer, a.evaluation) == Ok(t))
  {
  }

  /** What can happen to one pool's anchor: written when absent, invalidated, swept late, or
      nothing. */
  lemma AnchorEffect(pda: Pda, s: State, a: Action, pool: Pool)
    ensures var t := Next(pda, s, a);
            || AnchorKept(s, t, pool)
            || (a.Phase1? && AnchorWritten(s, t, pool))
            || (a.InvalidateAnchor? && AnchorStruck(s, t, pool))
            || (a.SweepStaleAnchor? && AnchorSwept(s, t, pool))
  {
    if a.Phase1? && Step(pda, s, a).Ok? {
      Phase1Effect(pda, s, a.pool, a.writer, a.evaluation);
    } else if a.Phase2? && Step(pda, s, a).Ok? {
      Phase2Effect(pda, s, a.pool, a.writer, a.evaluation);
    } else if a.SweepStaleAnchor? && Step(pda, s, a).Ok? {
      SweepNeedsFourEpochs(s.anchors[a.pool].firstEligibleEpoch, s.config.value.anchorStaleness, s.clock.epoch);
    }
  }

  ghost predicate AnchorKept(s: State, t: State, pool: Pool) {
    && (pool in t.anchors <==> pool in s.anchors)
    && (pool in s.anchors ==> t.anchors[pool] == s.anchors[pool])
  }

  ghost predicate AnchorWritten(s: State, t: State, pool: Pool) {
    && pool !in s.anchors && pool in t.anchors && t.clock == s.clock
    && t.anchors[pool].firstEligibleEpoch == s.clock.epoch
    && t.anchors[pool].bitmap == 0x3F && !t.anchors[pool].invalidated
  }

  ghost predicate AnchorStruck(s: State, t: State, pool: Pool) {
    && pool in s.anchors && pool in t.anchors && t.clock == s.clock
    && t.anchors[pool] == s.anchors[pool].(invalidated := true)
  }

  ghost predicate AnchorSwept(s: State, t: State, pool: Pool) {
    && pool in s.anchors && pool !in t.anchors && t.clock == s.clock
    && s.clock.epoch >= s.anchors[pool].firstEligibleEpoch + 4
  }

  /** Only the clock's own steps move it, and epochs never go back; the config keeps its floors and
      its authority. */
  lemma ClockAndConfigEffect(pda: Pda, s: State, a: Action)
    ensures var t := Next(pda, s, a);
            && t.clock.epoch >= s.clock.epoch && t.clock.slot >= s.clock.slot
            && (Floors(s) ==> Floors(t))
            && (s.config.Some? ==> t.config.Some? && t.config.value.authority == s.config.value.authority)
            && (!a.Tick? ==> t.clock == s.clock)
  {
    if a.Phase1? && Step(pda, s, a).Ok? {
      Phase1Effect(pda, s, a.pool, a.writer, a.evaluation);
    } else if a.Phase2? && Step(pda, s, a).Ok? {
      Phase2Effect(pda, s, a.pool, a.writer, a.evaluation);
    }
  }

  // ---------------------------------------------------------------- the invariant

  ghost predicate Floors(s: State) {
    s.config.Some? ==>
      s.config.value.certTtl >= MIN_CERT_TTL_SECONDS &&
      s.config.value.anchorStaleness >= MIN_ANCHOR_STALENESS_SECONDS
  }

  /** The certs ever issued for one pool, in order. */
  function History(issued: seq<Issue>, pool: Pool): seq<Cert> {
    if issued == [] then []
    else History(issued[..|issued| - 1], pool) +
         if issued[|issued| - 1].pool == pool then [issued[|issued| - 1].cert] else []
  }

  ghost predicate WellIssued(c: Cert) {
    && c.bitmap == 0x3F
    && c.certEpoch >= c.anchorEpoch + MIN_EPOCH_CONFIRMATION
    && c.expiresAt - c.issuedAt >= MIN_CERT_TTL_SECONDS
  }

  /** Numbered from one, each well issued, each issued no earlier than its predecessor expired. */
  ghost predicate Chained(h: seq<Cert>) {
    && (forall i :: 0 <= i < |h| ==> WellIssued(h[i]) && h[i].generation == i + 1)
    && (forall i :: 0 < i < |h| ==> Follows(h, i))
  }

  ghost predicate Follows(h: seq<Cert>, i: int)
    requires 0 < i < |h|
  {
    h[i - 1].expiresAt <= h[i].issuedAt
  }

  /** A pool's cert account is the last entry of its history. */
  ghost predicate Books(s: State, pool: Pool) {
    var h := History(s.issued, pool);
    Chained(h) && (pool in s.certs <==> h != []) && (h != [] ==> s.certs[pool] == h[|h| - 1])
  }

  ghost predicate Stamped(s: State, pool: Pool) {
    pool in s.anchors ==> s.anchors[pool].bitmap == 0x3F && s.anchors[pool].firstEligibleEpoch <= s.clock.epoch
  }

  ghost predicate Inv(s: State) {
    Floors(s) && forall pool: Pool :: Books(s, pool) && Stamped(s, pool)
  }

  lemma BooksStep(pda: Pda, s: State, a: Action, pool: Pool)
    requires Floors(s) && Books(s, pool)
    ensures Books(Next(pda, s, a), pool)
  {
    var t := Next(pda, s, a);
    OnlyPhase2Issues(pda, s, a);
    if !(t.certs == s.certs && t.issued == s.issued) {
      Phase2Effect(pda, s, a.pool, a.writer, a.evaluation);
      BooksIssue(s, t, pool, a.pool, t.certs[a.pool]);
    }
  }

  lemma BooksIssue(s: State, t: State, pool: Pool, issuedFor: Pool, c: Cert)
    requires Books(s, pool) && WellIssued(c)
    requires t.certs == s.certs[issuedFor := c] && t.issued == s.issued + [Issue(issuedFor, c)]
    requires c.generation == CertOf(s, issuedFor).generation + 1 && CertOf(s, issuedFor).expiresAt <= c.issuedAt
    ensures Books(t, pool)
  {
    assert t.issued[..|t.issued| - 1] == s.issued;
    if issuedFor == pool {
      AppendToChain(History(s.issued, pool), c, CertOf(s, pool));
    } else {
      assert History(t.issued, pool) == History(s.issued, pool);
    }
  }

  lemma AppendToChain(h: seq<Cert>, c: Cert, was: Cert)
    requires Chained(h) && WellIssued(c)
    requires was == if h == [] then ZEROED_CERT else h[|h| - 1]
    requires c.generation == was.generation + 1 && was.expiresAt <= c.issuedAt
    ensures Chained(h + [c])
  {
    forall i | 0 < i < |h + [c]| ensures Follows(h + [c], i) {
      if i < |h| {
        assert Follows(h, i);
      }
    }
  }

  lemma InvStep(pda: Pda, s: State, a: Action)
    requires Inv(s)
    ensures Inv(Next(pda, s, a))
  {
    ClockAndConfigEffect(pda, s, a);
    forall pool: Pool ensures Books(Next(pda, s, a), pool) && Stamped(Next(pda, s, a), pool) {
      assert Books(s, pool) && Stamped(s, pool);
      BooksStep(pda, s, a, pool);
      AnchorEffect(pda, s, a, pool);
    }
  }

  lemma {:induction false} InvRun(pda: Pda, s: State, actions: seq<Action>)
    requires Inv(s)
    ensures Inv(Run(pda, s, actions))
  {
    if actions != [] {
      InvRun(pda, s, actions[..|actions| - 1]);
      InvStep(pda, Run(pda, s, actions[..|actions| - 1]), actions[|actions| - 1]);
    }
  }

  lemma ReachableInv(pda: Pda, s: State)
    requires Reachable(pda, s)
    ensures Inv(s)
  {
    var clock: Clock, actions: seq<Action> :| s == Run(pda, Genesis(clock), actions);
    InvRun(pda, Genesis(clock), actions);
  }

  // ---------------------------------------------------------------- issued certs

  lemma {:induction false} HistoryHolds(issued: seq<Issue>, i: nat)
    requires i < |issued|
    ensures issued[i].cert in History(issued, issued[i].pool)
  {
    if i < |issued| - 1 {
      HistoryHolds(issued[..|issued| - 1], i);
    }
  }

  /** Every cert ever issued carries the full mask, waited out the two-epoch confirmation gap, and
      is valid for at least ten minutes; every reachable config keeps both floors. */
  lemma EveryIssuedCertIsSound(pda: Pda, s: State, i: nat)
    requires Reachable(pda, s) && i < |s.issued|
    ensures WellIssued(s.issued[i].cert)
    ensures Floors(s)
  {
    ReachableInv(pda, s);
    var pool := s.issued[i].pool;
    HistoryHolds(s.issued, i);
    assert Books(s, pool);
    var h := History(s.issued, pool);
    var j :| 0 <= j < |h| && h[j] == s.issued[i].cert;
  }

  /** Every anchor carries the full mask, so Phase 2 can never fail with a bitmap mismatch. */
  lemma BitmapMismatchIsUnreachable(pda: Pda, s: State, pool: Pool, writer: Bytes32, ev: Evaluation)
    requires Reachable(pda, s)
    ensures pool in s.anchors ==> s.anchors[pool].bitmap == 0x3F
    ensures Step(pda, s, Phase2(pool, writer, ev)) != Err(CriteriaBitmapMismatch)
  {
    ReachableInv(pda, s);
    assert Stamped(s, pool);
    if pool in s.anchors && s.config.Some? && pool in s.launchPrices {
      EvaluateNeverMismatches(pda, s, pool, ev);
    }
  }

  lemma EvaluateNeverMismatches(pda: Pda, s: State, pool: Pool, ev: Evaluation)
    requires s.config.Some? && pool in s.anchors && pool in s.launchPrices
    ensures var inputs := Gather(pda, s.config.value, s.clock, s.launchPrices[pool], pool, ev,
                                 Some(s.anchors[pool].firstEligibleEpoch));
            && inputs != Err(CriteriaBitmapMismatch)
            && (inputs.Ok? ==>
                  var bitmap := EvaluateOutcome(inputs.value, Thresholds(s.config.value), Two);
                  bitmap != Err(CriteriaBitmapMismatch) && (bitmap.Ok? ==> bitmap.value == 0x3F))
  {
    GatherFailsWithEvidenceCodes(pda, s.config.value, s.clock, s.launchPrices[pool], pool, ev,
                                 Some(s.anchors[pool].firstEligibleEpoch));
  }

  // ---------------------------------------------------------------- invalidation

  /** Certs of a pool issued after the first `n` log entries are from epoch `epoch` on. */
  ghost predicate NoneBefore(issued: seq<Issue>, n: nat, pool: Pool, epoch: nat) {
    forall i :: n <= i < |issued| && issued[i].pool == pool ==> issued[i].cert.certEpoch >= epoch
  }

  /** After an invalidation at stamp `f`: still struck, or swept at `f + 4` or later and at most
      written anew since. */
  ghost predicate Struck(s: State, pool: Pool, f: U64) {
    || (pool in s.anchors && s.anchors[pool].invalidated && s.anchors[pool].firstEligibleEpoch == f)
    || (s.clock.epoch >= f + 4 && (pool in s.anchors ==> s.anchors[pool].firstEligibleEpoch >= f + 4))
  }

  lemma StruckStep(pda: Pda, s: State, a: Action, pool: Pool, f: U64, n: nat)
    requires Struck(s, pool, f) && NoneBefore(s.issued, n, pool, f + 6)
    ensures Struck(Next(pda, s, a), pool, f) && NoneBefore(Next(pda, s, a).issued, n, pool, f + 6)
  {
    AnchorEffect(pda, s, a, pool);
    ClockAndConfigEffect(pda, s, a);
    OnlyPhase2Issues(pda, s, a);
    if Next(pda, s, a).issued != s.issued {
      Phase2Effect(pda, s, a.pool, a.writer, a.evaluation);
    }
  }

  lemma {:induction false} StruckRun(pda: Pda, s: State, actions: seq<Action>, pool: Pool, f: U64, n: nat)
    requires Struck(s, pool, f) && NoneBefore(s.issued, n, pool, f + 6)
    ensures Struck(Run(pda, s, actions), pool, f)
    ensures NoneBefore(Run(pda, s, actions).issued, n, pool, f + 6)
  {
    if actions != [] {
      StruckRun(pda, s, actions[..|actions| - 1], pool, f, n);
      StruckStep(pda, Run(pda, s, actions[..|actions| - 1]), actions[|actions| - 1], pool, f, n);
    }
  }

  /** Once an anchor stamped at epoch `f` is invalidated, no continuation of the run issues a cert
      for the pool in any epoch below `f + 6`: only a sweep, a fresh Phase 1 and the confirmation
      gap lead to one. */
  lemma InvalidationHolds(pda: Pda, s: State, actions: seq<Action>, pool: Pool, i: nat)
    requires pool in s.anchors && s.anchors[pool].invalidated
    requires |s.issued| <= i < |Run(pda, s, actions).issued| && Run(pda, s, actions).issued[i].pool == pool
    ensures Run(pda, s, actions).issued[i].cert.certEpoch >= s.anchors[pool].firstEligibleEpoch + 6
  {
    StruckRun(pda, s, actions, pool, s.anchors[pool].firstEligibleEpoch, |s.issued|);
  }

  // ---------------------------------------------------------------- anchors outlive the gap

  ghost predicate SameAnchor(s: State, t: State, pool: Pool)
    requires pool in s.anchors
  {
    && pool in t.anchors
    && t.anchors[pool] == s.anchors[pool].(invalidated := t.anchors[pool].invalidated)
  }

  lemma {:induction false} EpochMonotone(pda: Pda, s: State, actions: seq<Action>)
    ensures Run(pda, s, actions).clock.epoch >= s.clock.epoch
  {
    if actions != [] {
      EpochMonotone(pda, s, actions[..|actions| - 1]);
      ClockAndConfigEffect(pda, Run(pda, s, actions[..|actions| - 1]), actions[|actions| - 1]);
    }
  }

  /** Whatever the configuration becomes, an anchor stamped at `f` is there, with its stamp, its
      writer and its mask, as long as the epoch is at most `f + 3`. */
  lemma {:induction false} AnchorOutlivesGap(pda: Pda, s: State, actions: seq<Action>, pool: Pool)
    requires pool in s.anchors
    requires Run(pda, s, actions).clock.epoch <= s.anchors[pool].firstEligibleEpoch + 3
    ensures SameAnchor(s, Run(pda, s, actions), pool)
  {
    if actions != [] {
      var init, last := actions[..|actions| - 1], actions[|actions| - 1];
      var t := Run(pda, s, init);
      ClockAndConfigEffect(pda, t, last);
      AnchorOutlivesGap(pda, s, init, pool);
      AnchorEffect(pda, t, last, pool);
    }
  }

  /** So in epochs `f + 2` and `f + 3` Phase 2 never fails for want of the anchor or of the epoch gap:
      the evidence that passes Phase 1's criteria passes Phase 2's. */
  lemma Phase2WindowIsOpen(pda: Pda, s: State, actions: seq<Action>, pool: Pool, writer: Bytes32, ev: Evaluation)
    requires pool in s.anchors
    requires var now := Run(pda, s, actions).clock.epoch;
             s.anchors[pool].firstEligibleEpoch + 2 <= now <= s.anchors[pool].firstEligibleEpoch + 3
    ensures var t := Run(pda, s, actions);
            var r := Step(pda, t, Phase2(pool, writer, ev));
            && SameAnchor(s, t, pool)
            && r != Err(EpochConfirmationPending) && r != Err(AnchorNotFound)
            && (r == Err(AccountConstraint) ==> t.config.None? || pool !in t.launchPrices)
            && (t.config.Some? && pool in t.launchPrices ==>
                  var inputs := Gather(pda, t.config.value, t.clock, t.launchPrices[pool], pool, ev,
                                       Some(t.anchors[pool].firstEligibleEpoch));
                  inputs.Ok? ==>
                    (EvaluateOutcome(inputs.value, Thresholds(t.config.value), Two).Ok? <==>
                     Derelict(inputs.value, Thresholds(t.config.value), One)))
  {
    AnchorOutlivesGap(pda, s, actions, pool);
    Phase2PastTheGap(pda, Run(pda, s, actions), pool, writer, ev);
  }

  lemma Phase2PastTheGap(pda: Pda, s: State, pool: Pool, writer: Bytes32, ev: Evaluation)
    requires pool in s.anchors && s.clock.epoch >= s.anchors[pool].firstEligibleEpoch + 2
    ensures var r := Step(pda, s, Phase2(pool, writer, ev));
            && r != Err(EpochConfirmationPending) && r != Err(AnchorNotFound)
            && (r == Err(AccountConstraint) ==> s.config.None? || pool !in s.launchPrices)
    ensures s.config.Some? && pool in s.launchPrices ==>
              var inputs := Gather(pda, s.config.value, s.clock, s.launchPrices[pool], pool, ev,
                                   Some(s.anchors[pool].firstEligibleEpoch));
              inputs.Ok? ==>
                (EvaluateOutcome(inputs.value, Thresholds(s.config.value), Two).Ok? <==>
                 Derelict(inputs.value, Thresholds(s.config.value), One))
  {
    if s.config.Some? && pool in s.launchPrices {
      var anchorEpoch := s.anchors[pool].firstEligibleEpoch;
      var inputs := Gather(pda, s.config.value, s.clock, s.launchPrices[pool], pool, ev, Some(anchorEpoch));
      GatherFailsWithEvidenceCodes(pda, s.config.value, s.clock, s.launchPrices[pool], pool, ev, Some(anchorEpoch));
      if inputs.Ok? {
        GatherKeepsEpochs(pda, s.config.value, s.clock, s.launchPrices[pool], pool, ev, Some(anchorEpoch));
        GapElapsed(inputs.value, Thresholds(s.config.value));
      }
    }
  }

  lemma GapElapsed(i: CriteriaInputs, t: CriteriaThresholds)
    requires i.anchorEpoch.Some? && i.currentEpoch >= i.anchorEpoch.value + 2
    ensures var r := EvaluateOutcome(i, t, Two);
            && r != Err(EpochConfirmationPending) && r != Err(AnchorNotFound) && r != Err(AccountConstraint)
            && (r.Ok? <==> Derelict(i, t, One))
  {
    EvaluateIffDerelict(i, t, Two);
  }

  /** The codes of Phase 2's own gates. */
  predicate GateCode(e: ScanError) {
    e == AccountConstraint || e == AnchorNotFound || e == EpochConfirmationPending || e == CriteriaBitmapMismatch
  }

  /** No evidence failure is reported as the failure of a gate. */
  lemma GatherFailsWithEvidenceCodes(pda: Pda, c: Config, clock: Clock, launch: LaunchPrice, pool: Pool,
                                     ev: Evaluation, anchorEpoch: Option<U64>)
    ensures var r := Gather(pda, c, clock, launch, pool, ev, anchorEpoch);
            r.Err? ==> !GateCode(r.error)
  {
    AttestationCodes(ev.tx, ev.msg, pool, c.activityOracle, clock, ev.slotHashes);
    if ev.poolData.Ok? {
      ScanFailsWithLockerCodes(pda, ev.poolData.value.lpMint, pool.address, ev.accounts);
      PriceCodes(ev.poolData.value);
    } else {
      assert !GateCode(AdapterCode(ev.poolData.error));
    }
  }

  lemma PriceCodes(data: PoolData)
    ensures CurrentPrice(data).Err? ==> CurrentPrice(data).error == PoolDataParseError
  {
  }

  lemma GatherKeepsEpochs(pda: Pda, c: Config, clock: Clock, launch: LaunchPrice, pool: Pool, ev: Evaluation,
                          anchorEpoch: Option<U64>)
    requires Gather(pda, c, clock, launch, pool, ev, anchorEpoch).Ok?
    ensures var i := Gather(pda, c, clock, launch, pool, ev, anchorEpoch).value;
            i.currentEpoch == clock.epoch && i.anchorEpoch == anchorEpoch
  {
  }

  lemma AttestationCodes(tx: Transaction, msg: Message112, pool: Pool, oracle: Bytes32, clock: Clock,
                         slotHashes: seq<Byte>)
    ensures var r := VerifyLastSwapAttestation(tx.before, tx.index, tx.data, msg, pool.ammProgramId, pool.address,
                                               oracle, clock.unixTs, clock.slot, slotHashes);
            r.Err? ==> !GateCode(r.error)
  {
    MessageCodes(msg, pool, clock, slotHashes);
  }

  lemma MessageCodes(msg: Message112, pool: Pool, clock: Clock, slotHashes: seq<Byte>)
    ensures var r := VerifyAttestationMessage(msg, pool.ammProgramId, pool.address, clock.unixTs, clock.slot,
                                              slotHashes);
            r.Err? ==> !GateCode(r.error)
  {
  }

  // ---------------------------------------------------------------- validity windows

  lemma {:induction false} ChainedWindows(h: seq<Cert>, i: nat, j: nat)
    requires Chained(h) && i < j < |h|
    ensures h[i].expiresAt <= h[j].issuedAt
    decreases j
  {
    assert Follows(h, j);
    if i < j - 1 {
      ChainedWindows(h, i, j - 1);
      assert WellIssued(h[j - 1]);
    }
  }

  lemma {:induction false} GenerationTime(h: seq<Cert>, j: nat)
    requires Chained(h) && j < |h|
    ensures h[j].issuedAt >= h[0].issuedAt + 600 * j
  {
    if j > 0 {
      GenerationTime(h, j - 1);
      assert Follows(h, j) && WellIssued(h[j - 1]);
    }
  }

  /** The validity windows of one pool's certs are disjoint and in order, and generation `g` comes
      at least `600 (g - 1)` seconds after the first, however the TTL was reconfigured between and
      whatever the wall clock did. */
  lemma ValidityWindowsAreDisjoint(pda: Pda, s: State, pool: Pool, i: nat, j: nat)
    requires Reachable(pda, s) && i < j < |History(s.issued, pool)|
    ensures var h := History(s.issued, pool);
            && h[i].issuedAt < h[i].expiresAt <= h[j].issuedAt < h[j].expiresAt
            && h[i].generation < h[j].generation
            && h[j].issuedAt >= h[0].issuedAt + 600 * (h[j].generation - 1)
  {
    ReachableInv(pda, s);
    assert Books(s, pool);
    var h := History(s.issued, pool);
    ChainedWindows(h, i, j);
    GenerationTime(h, j);
    assert WellIssued(h[i]) && WellIssued(h[j]);
  }

  // ---------------------------------------------------------------- once-written accounts, pause

  /** A recorded launch price is never changed, by anyone, in any continuation. */
  lemma {:induction false} LaunchPriceIsForever(pda: Pda, s: State, actions: seq<Action>, pool: Pool)
    requires pool in s.launchPrices
    ensures pool in Run(pda, s, actions).launchPrices
    ensures Run(pda, s, actions).launchPrices[pool] == s.launchPrices[pool]
  {
    if actions != [] {
      LaunchPriceIsForever(pda, s, actions[..|actions| - 1], pool);
      LaunchPriceStep(pda, Run(pda, s, actions[..|actions| - 1]), actions[|actions| - 1], pool);
    }
  }

  lemma LaunchPriceStep(pda: Pda, s: State, a: Action, pool: Pool)
    requires pool in s.launchPrices
    ensures pool in Next(pda, s, a).launchPrices && Next(pda, s, a).launchPrices[pool] == s.launchPrices[pool]
  {
    if a.Phase1? && Step(pda, s, a).Ok? {
      Phase1Effect(pda, s, a.pool, a.writer, a.evaluation);
    } else if a.Phase2? && Step(pda, s, a).Ok? {
      Phase2Effect(pda, s, a.pool, a.writer, a.evaluation);
    }
  }

  /** Nobody but the authority can unpause, and until it does nothing is anchored, certified or
      recorded. */
  ghost predicate Unprivileged(a: Action, authority: Bytes32) {
    a.EmergencyPause? ==> a.caller != authority
  }

  lemma {:induction false} PauseHolds(pda: Pda, s: State, actions: seq<Action>)
    requires s.config.Some? && s.config.value.paused
    requires forall a :: a in actions ==> Unprivileged(a, s.config.value.authority)
    ensures var t := Run(pda, s, actions);
            && t.config.Some? && t.config.value.paused
            && t.config.value.authority == s.config.value.authority
            && t.issued == s.issued && t.certs == s.certs && t.launchPrices == s.launchPrices
            && t.anchors.Keys <= s.anchors.Keys
  {
    if actions != [] {
      var init, last := actions[..|actions| - 1], actions[|actions| - 1];
      assert last in actions && forall a :: a in init ==> a in actions;
      PauseHolds(pda, s, init);
    }
  }

  // ---------------------------------------------------------------- issuing, exactly

  /** No cert of the pool's history is still valid now; before the first one, a clock that does
      not read negative. */
  ghost predicate NoLiveCert(s: State, pool: Pool) {
    var h := History(s.issued, pool);
    (h == [] ==> s.clock.unixTs >= 0) && forall i :: 0 <= i < |h| ==> IsExpired(h[i], s.clock.unixTs)
  }

  lemma LiveIffLastLive(s: State, pool: Pool)
    requires Books(s, pool)
    ensures IsExpired(CertOf(s, pool), s.clock.unixTs) <==> NoLiveCert(s, pool)
    ensures CertOf(s, pool).generation == |History(s.issued, pool)|
  {
    var h := History(s.issued, pool);
    forall i | 0 <= i < |h| - 1 ensures h[i].expiresAt <= h[|h| - 1].expiresAt {
      ChainedWindows(h, i, |h| - 1);
      assert WellIssued(h[|h| - 1]);
    }
  }

  /** In a reachable state Phase 2 issues a cert exactly when: the program is not paused, the anchor
      is present and not invalidated, a launch price is recorded, the evidence checks out, the pool
      is derelict with the gap elapsed, no earlier cert of the pool is live, and neither the expiry
      nor the counter overflows. */
  lemma Phase2IssuesIff(pda: Pda, s: State, pool: Pool, writer: Bytes32, ev: Evaluation)
    requires Reachable(pda, s)
    ensures Step(pda, s, Phase2(pool, writer, ev)).Ok? <==>
            && s.config.Some? && !s.config.value.paused
            && pool in s.anchors && !s.anchors[pool].invalidated && pool in s.launchPrices
            && (var inputs := Gather(pda, s.config.value, s.clock, s.launchPrices[pool], pool, ev,
                                     Some(s.anchors[pool].firstEligibleEpoch));
                inputs.Ok? && Derelict(inputs.value, Thresholds(s.config.value), Two))
            && NoLiveCert(s, pool)
            && s.clock.unixTs + s.config.value.certTtl <= I64_MAX
            && |History(s.issued, pool)| < U64_MAX
  {
    ReachableInv(pda, s);
    assert Books(s, pool) && Stamped(s, pool);
    LiveIffLastLive(s, pool);
    if s.config.Some? && pool in s.anchors && pool in s.launchPrices {
      var inputs := Gather(pda, s.config.value, s.clock, s.launchPrices[pool], pool, ev,
                           Some(s.anchors[pool].firstEligibleEpoch));
      if inputs.Ok? {
        EvaluateIffDerelict(inputs.value, Thresholds(s.config.value), Two);
      }
    }
  }
}
