/** The six derelict-pool criteria (programs/grave-scanner/src/criteria.rs) and the fixed-point
    price they read (programs/grave-scanner/src/adapters/mod.rs). */
module Criteria {
  import opened Wrappers
  import opened Bytes
  import opened ScannerErrors

  const MIN_EPOCH_CONFIRMATION: U64 := 2
  const TWO_64 := 0x1_0000_0000_0000_0000
  const TWO_128 := 0x1_0000_0000_0000_0000_0000_0000_0000_0000

  const ALL_CRITERIA_MASK: bv8 := 0x3F

  datatype PoolData = PoolData(
    baseReserve: U64, quoteReserve: U64, lpSupply: U64,
    baseMint: Bytes32, quoteMint: Bytes32, lpMint: Bytes32)

  datatype CriteriaInputs = CriteriaInputs(
    lastSwapUnixTs: I64, currentUnixTs: I64, launchPrice: U128, currentPrice: U128,
    currentTvl: U64, lpSupply: U64, lpLocked: U64, currentEpoch: U64, anchorEpoch: Option<U64>)

  datatype CriteriaThresholds = CriteriaThresholds(
    inactivitySeconds: U64, priceCollapseBps: U16, minTvl: U64, lpBurnDust: U64)

  datatype Phase = One | Two

  // ---------------------------------------------------------------- prices

  /** Quote per base in Q64.64. A `u128` shift drops what leaves the word. */
  function CurrentPrice(pool: PoolData): Result<U128, ScanError> {
    if pool.baseReserve == 0 then Err(PoolDataParseError)
    else
      var scaled := (pool.quoteReserve * TWO_64) % TWO_128;
      DivAtMost(scaled, pool.baseReserve);
      Ok(scaled / pool.baseReserve)
  }

  lemma DivAtMost(a: nat, b: nat)
    requires b > 0
    ensures 0 <= a / b <= a
  {
    var q := a / b;
    assert a == b * q + a % b;
    MulMonotone(1, b, q);
  }

  /** The quotient reaches `t` exactly when the dividend reaches `t` times the divisor. */
  lemma DivThreshold(a: nat, b: nat, t: nat)
    requires b > 0
    ensures a / b >= t <==> a >= t * b
  {
    var q := a / b;
    assert a == q * b + a % b;
    if q >= t {
      MulMonotone(t, q, b);
    } else {
      MulMonotone(q + 1, t, b);
      assert (q + 1) * b == q * b + b;
    }
  }

  lemma MulMonotone(x: nat, y: nat, b: nat)
    requires x <= y
    ensures x * b <= y * b
  {
    assert y * b == x * b + (y - x) * b;
  }

  /** With a positive base reserve the shift loses nothing: the price is the exact floor. */
  lemma PriceIsExact(pool: PoolData)
    requires pool.baseReserve > 0
    ensures CurrentPrice(pool) == Ok((pool.quoteReserve * TWO_64) / pool.baseReserve)
  {
    assert pool.quoteReserve * TWO_64 < TWO_128;
  }

  /** More quote or less base never lowers the price. */
  lemma PriceMonotone(p: PoolData, q: PoolData)
    requires 0 < q.baseReserve <= p.baseReserve && p.quoteReserve <= q.quoteReserve
    ensures CurrentPrice(p).Ok? && CurrentPrice(q).Ok?
    ensures CurrentPrice(p).value <= CurrentPrice(q).value
  {
    PriceIsExact(p);
    PriceIsExact(q);
    var a, b := p.quoteReserve * TWO_64, q.quoteReserve * TWO_64;
    var t := a / p.baseReserve;
    DivThreshold(a, p.baseReserve, t);
    MulMonotone(q.baseReserve, p.baseReserve, t);
    assert t * q.baseReserve <= t * p.baseReserve;
    DivThreshold(b, q.baseReserve, t);
  }

  /** Price drop in basis points. */
  function ComputeDropBps(launch: U128, current: U128): Result<U16, ScanError> {
    if current >= launch then Ok(0)
    else
      var scaled := (launch - current) * 10_000;
      if scaled > U128_MAX then Err(MathOverflow)
      else
        var bps := scaled / launch;
        Ok(if bps > 10_000 then 10_000 else bps)
  }

  /** It errs exactly when the scaled drop leaves `u128`; otherwise it is the unbounded floor (zero
      at or above the launch price), and the clamp at 10 000 never acts. */
  lemma DropBpsIsExact(launch: U128, current: U128)
    ensures ComputeDropBps(launch, current).Err? <==> (launch - current) * 10_000 > U128_MAX
    ensures current < launch ==> (launch - current) * 10_000 / launch <= 10_000
    ensures ComputeDropBps(launch, current).Ok? ==>
              ComputeDropBps(launch, current).value ==
              if current < launch then (launch - current) * 10_000 / launch else 0
  {
    if current < launch {
      DivThreshold((launch - current) * 10_000, launch, 10_001);
      assert 10_001 * launch == 10_000 * launch + launch;
    }
  }

  /** Passing at `t` basis points is the cross-multiplied inequality, with no rounding left. */
  lemma PassesIffCrossMultiplied(launch: U128, current: U128, t: U16)
    requires t > 0 && launch > 0 && ComputeDropBps(launch, current).Ok?
    ensures ComputeDropBps(launch, current).value >= t <==> (launch - current) * 10_000 >= t * launch
  {
    if current < launch {
      DropBpsIsExact(launch, current);
      DivThreshold((launch - current) * 10_000, launch, t);
    } else {
      MulPositive(t, launch);
    }
  }

  lemma MulPositive(a: nat, b: nat)
    requires a > 0 && b > 0
    ensures a * b > 0
  {
  }

  /** Criterion 2's check. */
  predicate PricePasses(launch: U128, current: U128, t: U16) {
    ComputeDropBps(launch, current).Ok? && ComputeDropBps(launch, current).value >= t
  }

  /** For every launch price: where the lower price can be scaled and fails, so does the higher. */
  lemma DropMonotone(launch: U128, low: U128, high: U128, t: U16)
    requires low <= high && ComputeDropBps(launch, low).Ok?
    ensures ComputeDropBps(launch, high).Ok?
    ensures PricePasses(launch, high, t) ==> PricePasses(launch, low, t)
  {
    DropBpsIsExact(launch, low);
    DropBpsIsExact(launch, high);
    if high < launch {
      DivThreshold((launch - high) * 10_000, launch, t);
      DivThreshold((launch - low) * 10_000, launch, t);
    }
  }

  /** A price from which some rise turns a failing check into a passing one: exactly one whose drop
      overflows the scaling, when the largest drop that does not still reaches the threshold. */
  lemma RisePassesIff(launch: U128, low: U128, t: U16)
    ensures (exists high: U128 :: low <= high && !PricePasses(launch, low, t) && PricePasses(launch, high, t)) <==>
            (launch - low) * 10_000 > U128_MAX && t * launch <= LARGEST_DROP * 10_000
  {
    DropBpsIsExact(launch, low);
    if (launch - low) * 10_000 > U128_MAX {
      if t * launch <= LARGEST_DROP * 10_000 {
        var high: U128 := launch - LARGEST_DROP;
        DropBpsIsExact(launch, high);
        DivThreshold(LARGEST_DROP * 10_000, launch, t);
        assert low <= high && !PricePasses(launch, low, t) && PricePasses(launch, high, t);
      }
      forall high: U128 | low <= high && PricePasses(launch, high, t) ensures t * launch <= LARGEST_DROP * 10_000 {
        PassingDropIsScalable(launch, high, t);
      }
    } else {
      forall high: U128 | low <= high && PricePasses(launch, high, t) ensures PricePasses(launch, low, t) {
        DropMonotone(launch, low, high, t);
      }
    }
  }

  /** The largest drop that can be scaled in `u128`. */
  const LARGEST_DROP := U128_MAX / 10_000

  lemma PassingDropIsScalable(launch: U128, current: U128, t: U16)
    requires PricePasses(launch, current, t)
    ensures t * launch <= LARGEST_DROP * 10_000
  {
    DropBpsIsExact(launch, current);
    if current < launch {
      DivThreshold((launch - current) * 10_000, launch, t);
    } else {
      assert t == 0;
    }
  }

  /** Reviving a pool, by more quote or less base, turns a failing price check into a passing one
      only where the check failed for the overflow of its scaling; never for a launch price within
      `u128::MAX / 10000`. */
  lemma RevivalPassesOnlyPastOverflow(launch: U128, p: PoolData, q: PoolData, t: U16)
    requires 0 < q.baseReserve <= p.baseReserve && p.quoteReserve <= q.quoteReserve
    ensures CurrentPrice(p).Ok? && CurrentPrice(q).Ok?
    ensures launch <= LARGEST_DROP ==>
              ComputeDropBps(launch, CurrentPrice(p).value).Ok? && ComputeDropBps(launch, CurrentPrice(q).value).Ok?
    ensures !PricePasses(launch, CurrentPrice(p).value, t) && PricePasses(launch, CurrentPrice(q).value, t) ==>
              ComputeDropBps(launch, CurrentPrice(p).value) == Err(MathOverflow) && launch > LARGEST_DROP
  {
    PriceMonotone(p, q);
    var low := CurrentPrice(p).value;
    DropBpsIsExact(launch, low);
    DropBpsIsExact(launch, CurrentPrice(q).value);
    if ComputeDropBps(launch, low).Ok? {
      DropMonotone(launch, low, CurrentPrice(q).value, t);
    }
  }

  /** Just past that bound it happens: an emptied pool overflows, a unit of quote lets it pass at
      the default threshold. */
  lemma RevivalCanPass()
    ensures var launch := LARGEST_DROP + 1;
            var p, q := PoolData(1, 0, 0, 0, 0, 0), PoolData(1, 1, 0, 0, 0, 0);
            && CurrentPrice(p) == Ok(0) && ComputeDropBps(launch, 0) == Err(MathOverflow)
            && CurrentPrice(q) == Ok(TWO_64) && PricePasses(launch, TWO_64, 9_900)
  {
    PriceIsExact(PoolData(1, 0, 0, 0, 0, 0));
    PriceIsExact(PoolData(1, 1, 0, 0, 0, 0));
    OnePricePasses();
  }

  lemma OnePricePasses()
    ensures PricePasses(LARGEST_DROP + 1, TWO_64, 9_900)
  {
    CollapsedIff(LARGEST_DROP + 1, TWO_64, 9_900);
  }

  // ---------------------------------------------------------------- the evaluator

  /** The six criteria as facts about the inputs, without an evaluation order. */
  predicate Derelict(i: CriteriaInputs, t: CriteriaThresholds, phase: Phase) {
    && i.currentUnixTs - i.lastSwapUnixTs >= t.inactivitySeconds
    && i.launchPrice > 0
    && Collapsed(i.launchPrice, i.currentPrice, t.priceCollapseBps)
    && i.currentTvl >= t.minTvl
    && i.lpSupply > t.lpBurnDust
    && i.lpLocked == 0
    && (phase.Two? ==> i.anchorEpoch.Some? && i.currentEpoch >= i.anchorEpoch.value + MIN_EPOCH_CONFIRMATION)
  }

  /** The price fell by at least `bps` basis points, and the fall can be scaled in `u128`. */
  predicate Collapsed(launch: U128, current: U128, bps: U16) {
    if current >= launch then bps == 0
    else (launch - current) * 10_000 <= U128_MAX && (launch - current) * 10_000 >= bps * launch
  }

  /** The refusal that comes first. */
  function FirstRefusal(i: CriteriaInputs, t: CriteriaThresholds, phase: Phase): Option<ScanError> {
    if i.currentUnixTs < i.lastSwapUnixTs then Some(InvalidClock)
    else if i.currentUnixTs - i.lastSwapUnixTs < t.inactivitySeconds then Some(PoolNotEligible)
    else if i.launchPrice == 0 then Some(LaunchPriceNotFound)
    else
      var drop := ComputeDropBps(i.launchPrice, i.currentPrice);
      if drop.Err? then Some(drop.error)
      else if drop.value < t.priceCollapseBps || i.currentTvl < t.minTvl ||
              i.lpSupply <= t.lpBurnDust || i.lpLocked != 0 then Some(PoolNotEligible)
      else if phase.Two? && i.anchorEpoch.None? then Some(AnchorNotFound)
      else if phase.Two? && SaturatingSub(i.currentEpoch, i.anchorEpoch.value) < MIN_EPOCH_CONFIRMATION
      then Some(EpochConfirmationPending)
      else None
  }

  function SaturatingSub(a: U64, b: U64): U64 {
    if a < b then 0 else a - b
  }

  function EvaluateOutcome(i: CriteriaInputs, t: CriteriaThresholds, phase: Phase): Result<bv8, ScanError> {
    match FirstRefusal(i, t, phase)
    case Some(e) => Err(e)
    case None => Ok(ALL_CRITERIA_MASK)
  }

  method Evaluate(i: CriteriaInputs, t: CriteriaThresholds, phase: Phase)
      returns (r: Result<bv8, ScanError>)
    ensures r == EvaluateOutcome(i, t, phase)
  {
    var bitmap: bv8 := 0;
    if i.currentUnixTs < i.lastSwapUnixTs {
      return Err(InvalidClock);
    }
    if i.currentUnixTs - i.lastSwapUnixTs < t.inactivitySeconds {
      return Err(PoolNotEligible);
    }
    bitmap := bitmap | 0x01;
    if i.launchPrice == 0 {
      return Err(LaunchPriceNotFound);
    }
    var drop := ComputeDropBps(i.launchPrice, i.currentPrice);
    if drop.Err? {
      return Err(drop.error);
    }
    if drop.value < t.priceCollapseBps {
      return Err(PoolNotEligible);
    }
    bitmap := bitmap | 0x02;
    if i.currentTvl < t.minTvl {
      return Err(PoolNotEligible);
    }
    bitmap := bitmap | 0x04;
    if i.lpSupply <= t.lpBurnDust {
      return Err(PoolNotEligible);
    }
    bitmap := bitmap | 0x08;
    if i.lpLocked != 0 {
      return Err(PoolNotEligible);
    }
    bitmap := bitmap | 0x10;
    match phase {
      case One =>
        bitmap := bitmap | 0x20;
      case Two =>
        if i.anchorEpoch.None? {
          return Err(AnchorNotFound);
        }
        if SaturatingSub(i.currentEpoch, i.anchorEpoch.value) < MIN_EPOCH_CONFIRMATION {
          return Err(EpochConfirmationPending);
        }
        bitmap := bitmap | 0x20;
    }
    if bitmap != ALL_CRITERIA_MASK {
      return Err(PoolNotEligible);
    }
    r := Ok(bitmap);
  }

  /** The evaluator certifies exactly the derelict pools, and always with the full mask. */
  lemma EvaluateIffDerelict(i: CriteriaInputs, t: CriteriaThresholds, phase: Phase)
    ensures EvaluateOutcome(i, t, phase).Ok? <==> Derelict(i, t, phase)
    ensures EvaluateOutcome(i, t, phase).Ok? ==> EvaluateOutcome(i, t, phase).value == 0x3F
  {
    if i.launchPrice > 0 {
      CollapsedIff(i.launchPrice, i.currentPrice, t.priceCollapseBps);
    }
  }

  /** What each refusal means: a clock behind the swap, a missing baseline of an inactive pool, a drop that
      cannot be scaled, a pool that meets everything but the gap; any other pool is not eligible. */
  lemma RefusalIff(i: CriteriaInputs, t: CriteriaThresholds, phase: Phase)
    ensures var r := EvaluateOutcome(i, t, phase);
            var inactive := i.currentUnixTs - i.lastSwapUnixTs >= t.inactivitySeconds;
            && (r == Err(InvalidClock) <==> i.currentUnixTs < i.lastSwapUnixTs)
            && (r == Err(LaunchPriceNotFound) <==> inactive && i.launchPrice == 0)
            && (r == Err(MathOverflow) <==>
                  inactive && i.launchPrice > 0 && (i.launchPrice - i.currentPrice) * 10_000 > U128_MAX)
            && (r == Err(AnchorNotFound) <==> Derelict(i, t, One) && phase.Two? && i.anchorEpoch.None?)
            && (r == Err(EpochConfirmationPending) <==>
                  && Derelict(i, t, One) && phase.Two? && i.anchorEpoch.Some?
                  && i.currentEpoch < i.anchorEpoch.value + 2)
            && (r.Err? ==> r.error in {InvalidClock, LaunchPriceNotFound, MathOverflow, AnchorNotFound,
                                       EpochConfirmationPending, PoolNotEligible})
  {
    if i.launchPrice > 0 {
      DropBpsIsExact(i.launchPrice, i.currentPrice);
      CollapsedIff(i.launchPrice, i.currentPrice, t.priceCollapseBps);
    }
  }

  lemma CollapsedIff(launch: U128, current: U128, bps: U16)
    requires launch > 0
    ensures Collapsed(launch, current, bps) <==>
            ComputeDropBps(launch, current).Ok? && ComputeDropBps(launch, current).value >= bps
  {
    if current < launch {
      DropBpsIsExact(launch, current);
      DivThreshold((launch - current) * 10_000, launch, bps);
    }
  }

  /** Thresholds that some pool can meet: a collapse of at most the whole price, and an LP supply
      that exceeds the dust bound. Nothing else rules a pool out. */
  lemma SomePoolPassesIff(t: CriteriaThresholds, phase: Phase)
    ensures (exists i :: EvaluateOutcome(i, t, phase).Ok?) <==>
            t.priceCollapseBps <= 10_000 && t.lpBurnDust < U64_MAX
  {
    if t.priceCollapseBps <= 10_000 && t.lpBurnDust < U64_MAX {
      var i := CriteriaInputs(I64_MIN, I64_MAX, 1, 0, U64_MAX, U64_MAX, 0, 2, Some(0));
      EvaluateIffDerelict(i, t, phase);
      assert EvaluateOutcome(i, t, phase).Ok?;
    }
    forall i | EvaluateOutcome(i, t, phase).Ok?
      ensures t.priceCollapseBps <= 10_000 && t.lpBurnDust < U64_MAX
    {
      EvaluateIffDerelict(i, t, phase);
      CollapseAtMostWhole(i.launchPrice, i.currentPrice, t.priceCollapseBps);
    }
  }

  /** In particular a threshold above 10 000 basis points disables the protocol. */
  lemma ThresholdAboveFullDropBlocks(i: CriteriaInputs, t: CriteriaThresholds, phase: Phase)
    requires t.priceCollapseBps > 10_000
    ensures EvaluateOutcome(i, t, phase).Err?
  {
    SomePoolPassesIff(t, phase);
  }

  lemma CollapseAtMostWhole(launch: U128, current: U128, bps: U16)
    requires launch > 0 && Collapsed(launch, current, bps)
    ensures bps <= 10_000
    ensures bps == 10_000 ==> current == 0
  {
    if bps >= 10_000 {
      MulMonotone(10_000, bps, launch);
      if bps > 10_000 {
        MulMonotone(10_001, bps, launch);
      }
    }
  }
}
