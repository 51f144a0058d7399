/** What a sweep leaves behind. The sweep's own comment says that any cert minted from a swept anchor
    has long expired; here is when that is so, over the run that led to the sweep. */
module ScannerSweep {
  import opened Wrappers
  import opened Bytes
  import opened Criteria
  import opened Locker
  import opened ScannerState
  import opened ScannerRuns

  /** The state in which action `k` of a run is taken. */
  ghost function Before(pda: Pda, start: Clock, actions: seq<Action>, k: nat): State
    requires k <= |actions|
  {
    Run(pda, Genesis(start), actions[..k])
  }

  /** Action `k` is a Phase 2 that certifies the pool. */
  ghost predicate Mints(pda: Pda, start: Clock, actions: seq<Action>, k: nat, pool: Pool)
    requires k < |actions|
  {
    MintsNow(pda, Before(pda, start, actions, k), actions[k], pool)
  }

  ghost predicate MintsNow(pda: Pda, s: State, a: Action, pool: Pool) {
    && a.Phase2? && a.pool == pool && Step(pda, s, a).Ok?
    && s.config.Some? && pool in s.anchors
  }

  /** Action `k` certifies the pool, from an anchor stamped at `low` or later, for a window that by the
      clock and the TTL of that moment still covers `now`. */
  ghost predicate MintsPast(pda: Pda, start: Clock, actions: seq<Action>, k: nat, pool: Pool, low: nat, now: I64)
    requires k < |actions|
  {
    MintsPastNow(pda, Before(pda, start, actions, k), actions[k], pool, low, now)
  }

  ghost predicate MintsPastNow(pda: Pda, s: State, a: Action, pool: Pool, low: nat, now: I64) {
    && MintsNow(pda, s, a, pool)
    && low <= s.anchors[pool].firstEligibleEpoch
    && now < s.clock.unixTs + s.config.value.certTtl
  }

  ghost predicate LiveFrom(s: State, pool: Pool, low: nat, now: I64) {
    pool in s.certs && !IsExpired(s.certs[pool], now) && low <= s.certs[pool].anchorEpoch
  }

  /** No cert is from an anchor of the future, nor from one later than the anchor that is there. */
  ghost predicate MintOrder(s: State, pool: Pool) {
    && (pool in s.certs ==> s.certs[pool].anchorEpoch <= s.clock.epoch)
    && (pool in s.anchors ==> s.anchors[pool].firstEligibleEpoch <= s.clock.epoch)
    && (pool in s.certs && pool in s.anchors ==> s.certs[pool].anchorEpoch <= s.anchors[pool].firstEligibleEpoch)
  }

  lemma MintOrderStep(pda: Pda, s: State, a: Action, pool: Pool)
    requires MintOrder(s, pool)
    ensures MintOrder(Next(pda, s, a), pool)
    ensures pool in s.certs ==>
              pool in Next(pda, s, a).certs && s.certs[pool].anchorEpoch <= Next(pda, s, a).certs[pool].anchorEpoch
    ensures MintsNow(pda, s, a, pool) ==>
              pool in Next(pda, s, a).certs &&
              Next(pda, s, a).certs[pool].anchorEpoch == s.anchors[pool].firstEligibleEpoch
  {
    AnchorEffect(pda, s, a, pool);
    ClockAndConfigEffect(pda, s, a);
    OnlyPhase2Issues(pda, s, a);
    if a.Phase2? && Step(pda, s, a).Ok? {
      Phase2Effect(pda, s, a.pool, a.writer, a.evaluation);
    }
  }

  lemma LiveStep(pda: Pda, s: State, a: Action, pool: Pool, low: nat, now: I64)
    requires MintOrder(s, pool) && Floors(s)
    ensures LiveFrom(Next(pda, s, a), pool, low, now) <==>
            LiveFrom(s, pool, low, now) || MintsPastNow(pda, s, a, pool, low, now)
  {
    OnlyPhase2Issues(pda, s, a);
    if a.Phase2? && Step(pda, s, a).Ok? {
      Phase2Effect(pda, s, a.pool, a.writer, a.evaluation);
    }
  }

  lemma {:induction false} MintOrderRun(pda: Pda, start: Clock, actions: seq<Action>, pool: Pool)
    ensures MintOrder(Run(pda, Genesis(start), actions), pool)
  {
    if actions != [] {
      MintOrderRun(pda, start, actions[..|actions| - 1], pool);
      MintOrderStep(pda, Run(pda, Genesis(start), actions[..|actions| - 1]), actions[|actions| - 1], pool);
    }
  }

  /** Whatever was minted, the cert that is there is from an anchor at least as late. */
  lemma {:induction false} MintedBefore(pda: Pda, start: Clock, actions: seq<Action>, k: nat, pool: Pool)
    requires k < |actions| && Mints(pda, start, actions, k, pool)
    ensures var t := Run(pda, Genesis(start), actions);
            pool in t.certs &&
            Before(pda, start, actions, k).anchors[pool].firstEligibleEpoch <= t.certs[pool].anchorEpoch
  {
    var init := actions[..|actions| - 1];
    MintOrderRun(pda, start, init, pool);
    MintOrderStep(pda, Run(pda, Genesis(start), init), actions[|actions| - 1], pool);
    if k < |actions| - 1 {
      assert init[..k] == actions[..k];
      MintedBefore(pda, start, init, k, pool);
    }
  }

  /** At the end of a run a cert is live at `now` exactly when some Phase 2 of the run minted one for
      a window that covers `now`. */
  lemma {:induction false} LiveIffMinted(pda: Pda, start: Clock, actions: seq<Action>, pool: Pool, low: nat, now: I64)
    ensures LiveFrom(Run(pda, Genesis(start), actions), pool, low, now) <==>
            exists k: nat :: k < |actions| && MintsPast(pda, start, actions, k, pool, low, now)
  {
    if actions != [] {
      var init, last := actions[..|actions| - 1], |actions| - 1;
      var s := Run(pda, Genesis(start), init);
      LiveIffMinted(pda, start, init, pool, low, now);
      MintOrderRun(pda, start, init, pool);
      InvRun(pda, Genesis(start), init);
      LiveStep(pda, s, actions[last], pool, low, now);
      EarlierMints(pda, start, actions, pool, low, now);
      assert MintsPast(pda, start, actions, last, pool, low, now) <==>
             MintsPastNow(pda, s, actions[last], pool, low, now);
    }
  }

  lemma SameMint(pda: Pda, start: Clock, actions: seq<Action>, k: nat, pool: Pool, low: nat, now: I64)
    requires k + 1 < |actions|
    ensures MintsPast(pda, start, actions, k, pool, low, now) <==>
            MintsPast(pda, start, actions[..|actions| - 1], k, pool, low, now)
  {
    assert actions[..|actions| - 1][..k] == actions[..k];
  }

  lemma EarlierMints(pda: Pda, start: Clock, actions: seq<Action>, pool: Pool, low: nat, now: I64)
    requires actions != []
    ensures var init := actions[..|actions| - 1];
            (exists k: nat :: k < |actions| - 1 && MintsPast(pda, start, actions, k, pool, low, now)) <==>
            (exists k: nat :: k < |init| && MintsPast(pda, start, init, k, pool, low, now))
  {
    var init := actions[..|actions| - 1];
    forall k: nat | k < |init|
      ensures MintsPast(pda, start, actions, k, pool, low, now) <==> MintsPast(pda, start, init, k, pool, low, now)
    {
      SameMint(pda, start, actions, k, pool, low, now);
    }
  }

  /** Action `k` mints from the anchor stamped at `stamp`, for a window that covers `now`. */
  ghost predicate MintsFrom(pda: Pda, start: Clock, actions: seq<Action>, k: nat, pool: Pool, stamp: nat, now: I64)
    requires k < |actions|
  {
    MintsPast(pda, start, actions, k, pool, stamp, now) &&
    Before(pda, start, actions, k).anchors[pool].firstEligibleEpoch == stamp
  }

  /** A sweep leaves a live cert exactly when some Phase 2 of the run, whenever it was, certified the
      pool less than the TTL of that moment ago; and a live cert minted from the very anchor it
      closes exactly when such a Phase 2 used that anchor. Nothing in the sweep looks. */
  lemma SweepLeavesLiveCertIff(pda: Pda, start: Clock, actions: seq<Action>, pool: Pool, anchorWriter: Bytes32)
    requires Step(pda, Run(pda, Genesis(start), actions), SweepStaleAnchor(pool, anchorWriter)).Ok?
    ensures var s := Run(pda, Genesis(start), actions);
            var t := Step(pda, s, SweepStaleAnchor(pool, anchorWriter)).value;
            var now, stamp := s.clock.unixTs, s.anchors[pool].firstEligibleEpoch;
            && pool in s.anchors && pool !in t.anchors && t.clock == s.clock
            && (pool in t.certs && !IsExpired(t.certs[pool], now) <==>
                  exists k: nat :: k < |actions| && MintsPast(pda, start, actions, k, pool, 0, now))
            && (pool in t.certs && !IsExpired(t.certs[pool], now) && t.certs[pool].anchorEpoch == stamp <==>
                  exists k: nat :: k < |actions| && MintsFrom(pda, start, actions, k, pool, stamp, now))
  {
    var s := Run(pda, Genesis(start), actions);
    var now, stamp := s.clock.unixTs, s.anchors[pool].firstEligibleEpoch;
    SweepGoesThrough(pda, s, pool);
    LiveIffMinted(pda, start, actions, pool, 0, now);
    LiveFromStampIff(pda, start, actions, pool, now);
  }

  /** Of the anchor that is there: its cert is live exactly when some Phase 2 minted one from it. */
  lemma LiveFromStampIff(pda: Pda, start: Clock, actions: seq<Action>, pool: Pool, now: I64)
    requires pool in Run(pda, Genesis(start), actions).anchors
    ensures var s := Run(pda, Genesis(start), actions);
            var stamp := s.anchors[pool].firstEligibleEpoch;
            pool in s.certs && !IsExpired(s.certs[pool], now) && s.certs[pool].anchorEpoch == stamp <==>
            exists k: nat :: k < |actions| && MintsFrom(pda, start, actions, k, pool, stamp, now)
  {
    var stamp := Run(pda, Genesis(start), actions).anchors[pool].firstEligibleEpoch;
    LiveIffMinted(pda, start, actions, pool, stamp, now);
    MintOrderRun(pda, start, actions, pool);
    forall k: nat | k < |actions| && MintsPast(pda, start, actions, k, pool, stamp, now)
      ensures MintsFrom(pda, start, actions, k, pool, stamp, now)
    {
      MintedBefore(pda, start, actions, k, pool);
    }
  }

  /** Sweeping and certifying are both open in one epoch: once Phase 2 has issued there, the
      anchor's writer's sweep goes through at once and leaves the new cert live. */
  lemma SweepAfterPhase2LeavesLiveCert(pda: Pda, s: State, pool: Pool, writer: Bytes32, ev: Evaluation)
    requires Floors(s) && Step(pda, s, Phase2(pool, writer, ev)).Ok?
    requires SweepGate(s.anchors[pool].firstEligibleEpoch, s.config.value.anchorStaleness, s.clock.epoch).Ok?
    ensures var issued := Next(pda, s, Phase2(pool, writer, ev));
            var swept := Next(pda, issued, SweepStaleAnchor(pool, s.anchors[pool].writer));
            pool !in swept.anchors && pool in swept.certs && !IsExpired(swept.certs[pool], swept.clock.unixTs)
  {
    Phase2Effect(pda, s, pool, writer, ev);
    SweepGoesThrough(pda, Next(pda, s, Phase2(pool, writer, ev)), pool);
  }

  lemma SweepGoesThrough(pda: Pda, s: State, pool: Pool)
    requires s.config.Some? && pool in s.anchors
    requires SweepGate(s.anchors[pool].firstEligibleEpoch, s.config.value.anchorStaleness, s.clock.epoch).Ok?
    ensures Next(pda, s, SweepStaleAnchor(pool, s.anchors[pool].writer)) == s.(anchors := s.anchors - {pool})
  {
  }
}
