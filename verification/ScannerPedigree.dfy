/** Where certs come from: behind every cert ever issued there are two successful evaluations of the
    pool, two epochs apart, with one anchor standing untouched between them; behind every baseline an
    attested recording. */
module ScannerPedigree {
  import opened Wrappers
  import opened Bytes
  import opened Criteria
  import opened Attestation
  import opened Locker
  import opened ScannerState
  import opened ScannerRuns
  import opened ScannerInstructions
  import opened ScannerSweep

  /** Action `a` is a Phase 1 whose evidence shows the pool dead and that anchors it: the activity oracle
      configured at that moment signed for the last swap, and the locks supplied sum to zero. */
  ghost predicate FindsDerelict(pda: Pda, s: State, a: Action, pool: Pool) {
    && a.Phase1? && a.pool == pool && Step(pda, s, a).Ok?
    && s.config.Some? && pool in s.launchPrices
    && DeadPool(pda, s.config.value, s.clock, s.launchPrices[pool], pool, a.evaluation)
  }

  /** Action `a` is a Phase 2 whose own evidence shows it dead still, against the anchor that is there. */
  ghost predicate ConfirmsDerelict(pda: Pda, s: State, a: Action, pool: Pool) {
    && a.Phase2? && a.pool == pool && Step(pda, s, a).Ok?
    && s.config.Some? && pool in s.launchPrices && pool in s.anchors
    && s.clock.epoch >= s.anchors[pool].firstEligibleEpoch + 2
    && DeadPool(pda, s.config.value, s.clock, s.launchPrices[pool], pool, a.evaluation)
  }

  lemma Phase1Finds(pda: Pda, s: State, a: Action)
    requires a.Phase1? && Step(pda, s, a).Ok?
    ensures FindsDerelict(pda, s, a, a.pool)
  {
    Phase1AnchorsIff(pda, s, a.pool, a.writer, a.evaluation);
  }

  lemma Phase2Confirms(pda: Pda, s: State, a: Action)
    requires a.Phase2? && Step(pda, s, a).Ok?
    ensures ConfirmsDerelict(pda, s, a, a.pool)
  {
    PassesIffDead(pda, s.config.value, s.clock, s.launchPrices[a.pool], a.pool, a.evaluation,
                  Some(s.anchors[a.pool].firstEligibleEpoch), Two);
  }

  ghost predicate Stands(s: State, pool: Pool, anchor: Anchor) {
    pool in s.anchors && s.anchors[pool] == anchor && !anchor.invalidated
  }

  /** Action `j` wrote this anchor, and it has stood, neither invalidated nor swept, up to state `k`. */
  ghost predicate AnchoredAt(pda: Pda, start: Clock, actions: seq<Action>, j: nat, k: nat, pool: Pool, anchor: Anchor)
    requires j < k <= |actions|
  {
    && FindsDerelict(pda, Before(pda, start, actions, j), actions[j], pool)
    && anchor.firstEligibleEpoch == Before(pda, start, actions, j).clock.epoch
    && forall m: nat :: j < m <= k ==> Stands(Before(pda, start, actions, m), pool, anchor)
  }

  lemma SameBefore(pda: Pda, start: Clock, actions: seq<Action>, m: nat)
    requires actions != [] && m < |actions|
    ensures Before(pda, start, actions[..|actions| - 1], m) == Before(pda, start, actions, m)
  {
    assert actions[..|actions| - 1][..m] == actions[..m];
  }

  lemma AnchoredBefore(pda: Pda, start: Clock, actions: seq<Action>, j: nat, k: nat, pool: Pool, anchor: Anchor)
    requires actions != [] && j < k < |actions|
    requires AnchoredAt(pda, start, actions[..|actions| - 1], j, k, pool, anchor)
    ensures AnchoredAt(pda, start, actions, j, k, pool, anchor)
  {
    var init := actions[..|actions| - 1];
    SameBefore(pda, start, actions, j);
    forall m: nat | j < m <= k ensures Stands(Before(pda, start, actions, m), pool, anchor) {
      SameBefore(pda, start, actions, m);
      assert Stands(Before(pda, start, init, m), pool, anchor);
    }
  }

  lemma AnchoredStill(pda: Pda, start: Clock, actions: seq<Action>, j: nat, pool: Pool, anchor: Anchor)
    requires j + 1 < |actions| && AnchoredAt(pda, start, actions[..|actions| - 1], j, |actions| - 1, pool, anchor)
    requires Stands(Run(pda, Genesis(start), actions), pool, anchor)
    ensures AnchoredAt(pda, start, actions, j, |actions|, pool, anchor)
  {
    AnchoredBefore(pda, start, actions, j, |actions| - 1, pool, anchor);
    assert actions[..|actions|] == actions;
    forall m: nat | j < m <= |actions| ensures Stands(Before(pda, start, actions, m), pool, anchor) {
      assert m <= |actions| - 1 || m == |actions|;
    }
  }

  /** An anchor that stands was written by some Phase 1 of the run and has stood since. */
  lemma {:induction false} AnchorPedigree(pda: Pda, start: Clock, actions: seq<Action>, pool: Pool, anchor: Anchor)
      returns (j: nat)
    requires Stands(Run(pda, Genesis(start), actions), pool, anchor)
    ensures j < |actions| && AnchoredAt(pda, start, actions, j, |actions|, pool, anchor)
  {
    var init, last := actions[..|actions| - 1], |actions| - 1;
    var s := Run(pda, Genesis(start), init);
    if Stands(s, pool, anchor) {
      j := AnchorPedigree(pda, start, init, pool, anchor);
      AnchoredStill(pda, start, actions, j, pool, anchor);
    } else {
      j := last;
      AnchoredNow(pda, start, actions, pool, anchor);
    }
  }

  lemma AnchoredNow(pda: Pda, start: Clock, actions: seq<Action>, pool: Pool, anchor: Anchor)
    requires actions != [] && !Stands(Run(pda, Genesis(start), actions[..|actions| - 1]), pool, anchor)
    requires Stands(Run(pda, Genesis(start), actions), pool, anchor)
    ensures AnchoredAt(pda, start, actions, |actions| - 1, |actions|, pool, anchor)
  {
    var last := |actions| - 1;
    WrittenJustNow(pda, Run(pda, Genesis(start), actions[..last]), actions[last], pool, anchor);
    assert actions[..|actions|] == actions;
  }

  lemma WrittenJustNow(pda: Pda, s: State, a: Action, pool: Pool, anchor: Anchor)
    requires !Stands(s, pool, anchor) && Stands(Next(pda, s, a), pool, anchor)
    ensures FindsDerelict(pda, s, a, pool) && anchor.firstEligibleEpoch == s.clock.epoch
  {
    AnchorEffect(pda, s, a, pool);
    assert a.Phase1?;
    if Step(pda, s, a).Ok? {
      Phase1Effect(pda, s, a.pool, a.writer, a.evaluation);
      Phase1Finds(pda, s, a);
    }
  }

  /** Behind an issued cert: Phase 1 found the pool derelict at `j`, in the cert's anchor epoch; Phase 2
      found it derelict again at `k`, at least two epochs on, in the cert's own epoch and at its issue
      time; and the anchor stood between them, neither invalidated nor swept. */
  ghost predicate Pedigree(pda: Pda, start: Clock, actions: seq<Action>, j: nat, k: nat, issue: Issue)
    requires j < k < |actions|
  {
    var phase1, phase2 := Before(pda, start, actions, j), Before(pda, start, actions, k);
    && FindsDerelict(pda, phase1, actions[j], issue.pool)
    && ConfirmsDerelict(pda, phase2, actions[k], issue.pool)
    && AnchoredAt(pda, start, actions, j, k, issue.pool, phase2.anchors[issue.pool])
    && issue.cert.anchorEpoch == phase1.clock.epoch && issue.cert.certEpoch == phase2.clock.epoch
    && phase2.clock.epoch >= phase1.clock.epoch + 2
    && issue.cert.issuedAt == phase2.clock.unixTs
  }

  lemma PedigreeBefore(pda: Pda, start: Clock, actions: seq<Action>, j: nat, k: nat, issue: Issue)
    requires j < k && k + 1 < |actions| && Pedigree(pda, start, actions[..|actions| - 1], j, k, issue)
    ensures Pedigree(pda, start, actions, j, k, issue)
  {
    SameBefore(pda, start, actions, j);
    SameBefore(pda, start, actions, k);
    AnchoredBefore(pda, start, actions, j, k, issue.pool, Before(pda, start, actions, k).anchors[issue.pool]);
  }

  /** Every cert ever issued has a pedigree. */
  lemma {:induction false} EveryCertHasPedigree(pda: Pda, start: Clock, actions: seq<Action>, issue: Issue)
      returns (j: nat, k: nat)
    requires issue in Run(pda, Genesis(start), actions).issued
    ensures j < k < |actions| && Pedigree(pda, start, actions, j, k, issue)
  {
    assert actions != [];
    if issue in Run(pda, Genesis(start), actions[..|actions| - 1]).issued {
      j, k := EveryCertHasPedigree(pda, start, actions[..|actions| - 1], issue);
      PedigreeBefore(pda, start, actions, j, k, issue);
    } else {
      k := |actions| - 1;
      j := LastCertPedigree(pda, start, actions, issue);
    }
  }

  lemma LastCertPedigree(pda: Pda, start: Clock, actions: seq<Action>, issue: Issue) returns (j: nat)
    requires actions != [] && issue in Run(pda, Genesis(start), actions).issued
    requires issue !in Run(pda, Genesis(start), actions[..|actions| - 1]).issued
    ensures j < |actions| - 1 && Pedigree(pda, start, actions, j, |actions| - 1, issue)
  {
    var init, a := actions[..|actions| - 1], actions[|actions| - 1];
    var s := Run(pda, Genesis(start), init);
    OnlyPhase2Issues(pda, s, a);
    Phase2Effect(pda, s, a.pool, a.writer, a.evaluation);
    Phase2Confirms(pda, s, a);
    j := AnchorPedigree(pda, start, init, a.pool, s.anchors[a.pool]);
    AnchoredBefore(pda, start, actions, j, |init|, a.pool, s.anchors[a.pool]);
  }

  // ---------------------------------------------------------------- baselines

  /** Action `a` records this baseline for a pool that had none: the launch-price oracle configured at
      that moment signed a message that states it. */
  ghost predicate Records(s: State, a: Action, pool: Pool, launch: LaunchPrice) {
    && a.RecordLaunchPrice? && a.pool == pool && pool !in s.launchPrices
    && s.config.Some? && !s.config.value.paused
    && BaselineVouched(s.config.value, s.clock, pool, a.tx, a.launch)
    && var att := Stated(a.launch.msg);
       launch == LaunchPrice(att.baseMint, att.quoteMint, att.launchPrice, att.firstSwapSlot, att.firstSwapUnixTs,
                             s.clock.slot, s.clock.unixTs)
  }

  lemma RecordedJustNow(pda: Pda, s: State, a: Action, pool: Pool)
    requires pool !in s.launchPrices && pool in Next(pda, s, a).launchPrices
    ensures Records(s, a, pool, Next(pda, s, a).launchPrices[pool])
  {
    if a.Phase1? && Step(pda, s, a).Ok? {
      Phase1Effect(pda, s, a.pool, a.writer, a.evaluation);
    } else if a.Phase2? && Step(pda, s, a).Ok? {
      Phase2Effect(pda, s, a.pool, a.writer, a.evaluation);
    } else if a.RecordLaunchPrice? {
      RecordsIff(pda, s, a.pool, a.tx, a.launch);
    }
  }

  /** Every baseline of a run was recorded by one of its actions, attested, as it still stands. */
  lemma {:induction false} BaselinePedigree(pda: Pda, start: Clock, actions: seq<Action>, pool: Pool) returns (j: nat)
    requires pool in Run(pda, Genesis(start), actions).launchPrices
    ensures j < |actions|
    ensures Records(Before(pda, start, actions, j), actions[j], pool,
                    Run(pda, Genesis(start), actions).launchPrices[pool])
  {
    assert actions != [];
    var init, last := actions[..|actions| - 1], |actions| - 1;
    var s := Run(pda, Genesis(start), init);
    if pool in s.launchPrices {
      j := BaselinePedigree(pda, start, init, pool);
      SameBefore(pda, start, actions, j);
      LaunchPriceStep(pda, s, actions[last], pool);
    } else {
      j := last;
      RecordedJustNow(pda, s, actions[last], pool);
    }
  }
}
