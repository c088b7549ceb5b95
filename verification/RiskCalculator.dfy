/** The off-chain risk engine's arithmetic (RiskCalculator.cpp) and its agreement with the contracts. */
module RiskCalculator {
  import opened Results
  import opened FixedPoint
  import opened Ledgers
  import opened RiskManager
  import opened Pool
  import opened LiquidationManager
  import opened AccrualSoundness
  import opened PoolEffects
  import opened Protocol
  import opened StateProjector
  import opened ProjectorRefinement
  import IRM = InterestRateModel

  function ToUint64(x: nat): Result<nat> {
    if x <= MAX_UINT64 then Success(x) else Failure(Uint64Overflow)
  }

  /** The kinked borrow rate, as the risk engine writes it out. */
  function BorrowRate(utilization: nat): Result<nat> {
    if utilization <= IRM.OPTIMAL_UTILIZATION then
      var slope :- MulDivDown(utilization, IRM.SLOPE_1, IRM.OPTIMAL_UTILIZATION);
      Add(IRM.BASE_RATE, slope)
    else
      var base :- Add(IRM.BASE_RATE, IRM.SLOPE_1);
      var slope :- MulDivDown(utilization - IRM.OPTIMAL_UTILIZATION, IRM.SLOPE_2, RAY - IRM.OPTIMAL_UTILIZATION);
      Add(base, slope)
  }

  function ProjectedBorrowIndex(market: MarketState, evaluatedAt: nat): Result<nat> {
    if market.totalScaledUsdcDebt == 0 then Success(market.borrowIndex) else
    var lastUpdate :- ToUint64(market.lastInterestTimestamp);
    if evaluatedAt <= lastUpdate then Success(market.borrowIndex) else
    var totalDebt :- DebtAtIndex(market.totalScaledUsdcDebt, market.borrowIndex);
    var both :- Add(market.availableUsdcLiquidity, totalDebt);
    var utilization :- MulDivDown(totalDebt, RAY, both);
    var borrowRate :- BorrowRate(utilization);
    var growth :- MulDivDown(borrowRate, evaluatedAt - lastUpdate, SECONDS_PER_YEAR);
    var factor :- Add(RAY, growth);
    MulDivDown(market.borrowIndex, factor, RAY)
  }

  function RequireFreshPrice(price: nat, updatedAt: nat, maxAge: nat, evaluatedAt: nat): Result<()> {
    if price == 0 || updatedAt == 0 || maxAge == 0 then Failure(PriceUnavailable) else
    var updated :- ToUint64(updatedAt);
    var maximumAge :- ToUint64(maxAge);
    if evaluatedAt < updated || evaluatedAt - updated > maximumAge then Failure(StalePrice) else Success(())
  }

  datatype PositionRisk = PositionRisk(
    wethCollateral: nat,
    usdcDebt: nat,
    collateralValue: nat,
    debtValue: nat,
    maxBorrow: nat,
    healthFactor: nat,
    liquidatable: bool)

  /** The prices the engine reads from the indexed market, already known to be fresh. */
  function IndexedPrices(market: MarketState): Prices {
    Prices(Success(market.wethPrice), Success(market.usdcPrice))
  }

  function Evaluate(wethCollateral: nat, usdcDebt: nat, market: MarketState, evaluatedAt: nat): Result<PositionRisk> {
    var prices := IndexedPrices(market);
    if usdcDebt == 0 then
      if market.wethPrice == 0 then
        Success(PositionRisk(wethCollateral, 0, 0, 0, 0, MAX_UINT256, false))
      else
        var value :- CollateralValue(prices, wethCollateral);
        var maxBorrow :- MulDivDown(value, WETH_LTV_BPS, BPS);
        Success(PositionRisk(wethCollateral, 0, value, 0, maxBorrow, MAX_UINT256, false))
    else
      var _ :- RequireFreshPrice(market.wethPrice, market.wethPriceUpdatedAt, market.wethMaxPriceAge, evaluatedAt);
      var _ :- RequireFreshPrice(market.usdcPrice, market.usdcPriceUpdatedAt, market.usdcMaxPriceAge, evaluatedAt);
      var collateralValue :- CollateralValue(prices, wethCollateral);
      var debtValue :- DebtValue(prices, usdcDebt);
      var maxBorrow :- MulDivDown(collateralValue, WETH_LTV_BPS, BPS);
      var adjusted :- MulDivDown(collateralValue, WETH_LIQUIDATION_THRESHOLD_BPS, BPS);
      var health :- MulDivDown(adjusted, WAD, debtValue);
      Success(PositionRisk(wethCollateral, usdcDebt, collateralValue, debtValue, maxBorrow, health, health < WAD))
  }

  function EvaluateIndexed(position: PositionState, market: MarketState, evaluatedAt: nat): Result<PositionRisk> {
    var index :- ProjectedBorrowIndex(market, evaluatedAt);
    var debt :- DebtAtIndex(position.scaledUsdcDebt, index);
    Evaluate(position.wethCollateral, debt, market, evaluatedAt)
  }

  datatype Candidate = Candidate(maxRepay: nat, expectedBonus: nat, expectedCollateral: nat, expectedBadDebt: nat)

  function BuildCandidate(risk: PositionRisk, market: MarketState, requestedRepay: Option<nat>)
    : Result<Option<Candidate>>
  {
    if !risk.liquidatable || risk.usdcDebt == 0 || risk.wethCollateral == 0 then Success(None) else
    var debt := risk.usdcDebt;
    var prices := IndexedPrices(market);
    var requested := if requestedRepay.Some? then requestedRepay.value else debt;
    if requested == 0 then Success(None) else
    var half :- MulDivDown(debt, CLOSE_FACTOR_BPS, BPS);
    var rest :- Sub(debt, half);
    var closeFactorLimit := if rest < MINIMUM_USDC_BORROW then debt else half;
    var limitedValue :- MulDivDown(risk.collateralValue, BPS, BPS + LIQUIDATION_BONUS_BPS);
    var limitedRepay :- DebtAmountForValueDown(prices, limitedValue);
    var capped := Min(requested, Min(closeFactorLimit, limitedRepay));
    var collateralLimited := limitedRepay <= requested && limitedRepay <= closeFactorLimit;
    var remaining :- Sub(debt, capped);
    var repay :- if !collateralLimited && remaining != 0 && remaining < MINIMUM_USDC_BORROW
                 then Sub(debt, MINIMUM_USDC_BORROW) else Success(capped);
    if repay == 0 then Success(None) else
    var repaidValue :- DebtValue(prices, repay);
    var valueWithBonus :- MulDivDown(repaidValue, BPS + LIQUIDATION_BONUS_BPS, BPS);
    var computed :- CollateralAmountForValueDown(prices, valueWithBonus);
    var seized := if collateralLimited then risk.wethCollateral else computed;
    if seized == 0 then Success(None) else
    var seizedValue :- CollateralValue(prices, seized);
    var bonus := if seizedValue > repaidValue then seizedValue - repaidValue else 0;
    var badDebt := if collateralLimited && debt > repay then debt - repay else 0;
    Success(Some(Candidate(repay, bonus, seized, badDebt)))
  }

  // Agreement on debt and health -------------------------------------------------------------

  /** Every registered asset has a positive maximum age. */
  ghost predicate OracleSound(oracle: Oracle) {
    forall a :: a in oracle ==> oracle[a].maxPriceAge > 0
  }

  lemma {:induction false} OracleAlwaysSound(m: Market, deployedAt: nat, txs: seq<Tx>)
    ensures OracleSound(Run(m, Genesis(deployedAt), txs).after.oracle)
  {
    if txs != [] {
      hide PoolCall;
      OracleAlwaysSound(m, deployedAt, txs[..|txs| - 1]);
    }
  }

  /** The engine accepts a mirrored price exactly when the oracle does, except for a report stamped zero
      or a maximum age beyond 64 bits. */
  lemma FreshPricesAgree(m: Market, oracle: Oracle, asset: Address, now: nat)
    requires OracleSound(oracle) && now <= MAX_UINT64
    ensures var row := OracleRow(oracle, asset);
            RequireFreshPrice(row.price, row.updatedAt, row.maxPriceAge, now).Success? <==>
            GetPrice(oracle, asset, now).Success? && row.updatedAt != 0 && row.maxPriceAge <= MAX_UINT64
  {
  }

  lemma BorrowRatesAgree(utilization: nat)
    requires utilization <= RAY
    ensures BorrowRate(utilization) == IRM.BorrowRate(utilization)
  {
    hide Floor;
  }

  /** The mirror's clock is the pool's, or no interest is running. */
  predicate ClockAgrees(p: Storage, market: MarketState) {
    market.lastInterestTimestamp == p.lastUpdate || p.debts.total == 0
  }

  /** After the first accrual, or without debt, the engine projects the same index as the pool. */
  lemma IndicesAgree(m: Market, c: Chain, d: DerivedState, now: nat)
    requires Books(c.pool) && Mirrors(m, c, d) && ClockAgrees(c.pool, d.market)
    requires now <= MAX_UINT64 && ProjectedIndices(c.pool, now).Success?
    ensures ProjectedBorrowIndex(d.market, now) == Success(ProjectedIndices(c.pool, now).value.borrow)
  {
    hide Floor, Ceil, CappedLiquidityIndex, IRM.BorrowRate, IRM.LiquidityRate, BorrowRate, MirrorsUsers, MirrorsPrices;
    var p := c.pool;
    if p.debts.total > 0 && now > p.lastUpdate {
      CeilPositive(p.debts.total, p.borrowIndex, RAY);
      IRM.UtilizationAtMostOne(p.available, TotalDebt(p));
      BorrowRatesAgree(Floor(TotalDebt(p), RAY, p.available + TotalDebt(p)));
    }
  }

  /** The on-chain liquidation flag: debt with a health factor below one. */
  function IsLiquidatable(prices: Prices, collateral: nat, debt: nat): Result<bool> {
    if debt == 0 then Success(false) else
    var health :- HealthFactor(prices, collateral, debt);
    Success(health < WAD)
  }

  ghost predicate EngineFresh(market: MarketState, now: nat) {
    && RequireFreshPrice(market.wethPrice, market.wethPriceUpdatedAt, market.wethMaxPriceAge, now).Success?
    && RequireFreshPrice(market.usdcPrice, market.usdcPriceUpdatedAt, market.usdcMaxPriceAge, now).Success?
  }

  /** On the mirrored state after the first accrual and with fresh prices, the engine computes the debt,
      health factor and liquidation flag that the contracts would at the same block time. */
  lemma HealthAgrees(m: Market, c: Chain, d: DerivedState, user: Address, now: nat)
    requires Sound(c.pool) && OracleSound(c.oracle) && Mirrors(m, c, d)
    requires ClockAgrees(c.pool, d.market) && now <= MAX_UINT64
    requires UsdcDebt(c.pool, now, user).Success? && EngineFresh(d.market, now)
    ensures var debt := UsdcDebt(c.pool, now, user).value;
            var collateral := c.pool.collateral.BalanceOf(user);
            var health := HealthFactor(PricesAt(m, c.oracle, now), collateral, debt);
            var risk := EvaluateIndexed(PositionOf(d, user), d.market, now);
            && (debt != 0 ==> (risk.Success? <==> health.Success?))
            && (debt == 0 ==>
                  (risk.Success? <==> CollateralValue(PricesAt(m, c.oracle, now), collateral).Success?))
            && (risk.Success? ==>
                  && risk.value.usdcDebt == debt && risk.value.wethCollateral == collateral
                  && health == Success(risk.value.healthFactor)
                  && IsLiquidatable(PricesAt(m, c.oracle, now), collateral, debt) == Success(risk.value.liquidatable)
                  && CollateralValue(PricesAt(m, c.oracle, now), collateral) == Success(risk.value.collateralValue)
                  && DebtValue(PricesAt(m, c.oracle, now), debt) == Success(risk.value.debtValue)
                  && MaxBorrow(PricesAt(m, c.oracle, now), collateral) == Success(risk.value.maxBorrow))
  {
    hide Floor, Ceil, ProjectedIndices, ProjectedBorrowIndex;
    IndicesAgree(m, c, d, now);
    EnginePrices(m, c, d, now);
    var debt := UsdcDebt(c.pool, now, user).value;
    assert PositionOf(d, user).scaledUsdcDebt == c.pool.debts.BalanceOf(user);
    var prices := PricesAt(m, c.oracle, now);
    var collateral := c.pool.collateral.BalanceOf(user);
    if CollateralValue(prices, collateral).Success? {
      IRM.FloorScalesDown(CollateralValue(prices, collateral).value, WETH_LTV_BPS, BPS);
    }
  }

  /** Without debt nothing needs to be fresh: the collateral is valued at whatever price was last indexed, at nothing
      before the first, and the position is never liquidatable. */
  lemma DebtFreeRisk(position: PositionState, market: MarketState, now: nat)
    requires position.scaledUsdcDebt == 0
    ensures var risk := EvaluateIndexed(position, market, now);
            risk.Success? ==>
              && risk.value.wethCollateral == position.wethCollateral && risk.value.usdcDebt == 0
              && risk.value.debtValue == 0 && risk.value.healthFactor == MAX_UINT256 && !risk.value.liquidatable
              && (if market.wethPrice == 0 then risk.value.collateralValue == risk.value.maxBorrow == 0 else
                  && risk.value.collateralValue * 100_000_000 <= position.wethCollateral * market.wethPrice
                     < (risk.value.collateralValue + 1) * 100_000_000
                  && risk.value.maxBorrow * 10_000 <= risk.value.collateralValue * 7_500
                     < (risk.value.maxBorrow + 1) * 10_000)
  {
    hide Floor, Ceil, ProjectedBorrowIndex;
    var risk := EvaluateIndexed(position, market, now);
    if risk.Success? {
      ZeroProduct(ProjectedBorrowIndex(market, now).value, RAY);
      FloorBounds(position.wethCollateral, market.wethPrice, ORACLE_PRICE_SCALE);
      FloorBounds(risk.value.collateralValue, WETH_LTV_BPS, BPS);
    }
  }

  lemma EnginePrices(m: Market, c: Chain, d: DerivedState, now: nat)
    requires OracleSound(c.oracle) && MirrorsPrices(m, c.oracle, d.market) && now <= MAX_UINT64
    requires EngineFresh(d.market, now)
    ensures PricesAt(m, c.oracle, now) == IndexedPrices(d.market)
  {
    FreshPricesAgree(m, c.oracle, m.weth, now);
    FreshPricesAgree(m, c.oracle, m.usdc, now);
  }

  /** Before the first accrual the engine projects from time zero, because the deployment time is in no event: it
      then agrees with the pool if and only if there is no debt or the pool was deployed at time zero. */
  lemma IndicesAgreeIff(m: Market, deployedAt: nat, txs: seq<Tx>, logs: seq<RawLog>, now: nat)
    requires m.weth != m.usdc && now <= MAX_UINT64
    requires Carries(logs, Run(m, Genesis(deployedAt), txs).events) && !Accrues(Run(m, Genesis(deployedAt), txs).events)
    requires ProjectedIndices(Run(m, Genesis(deployedAt), txs).after.pool, now).Success?
    ensures var p := Run(m, Genesis(deployedAt), txs).after.pool;
            var indexed := ApplyAll(m, CreateInitialState(), logs);
            && indexed.Success?
            && (ProjectedBorrowIndex(indexed.value.market, now) == Success(ProjectedIndices(p, now).value.borrow) <==>
                p.debts.total == 0 || deployedAt == 0)
  {
    hide Run, ApplyAll, Carries, Accrues, ProjectedIndices, ProjectedBorrowIndex;
    ProjectorRefinesPool(m, deployedAt, txs, logs);
    var p := Run(m, Genesis(deployedAt), txs).after.pool;
    UnaccruedIndicesAgreeIff(p, ApplyAll(m, CreateInitialState(), logs).value.market, now);
  }

  lemma UnaccruedIndicesAgreeIff(p: Storage, k: MarketState, now: nat)
    requires Books(p) && MirrorsTotals(p, k) && p.borrowIndex == RAY && k.lastInterestTimestamp == 0
    requires now <= MAX_UINT64 && ProjectedIndices(p, now).Success?
    ensures ProjectedBorrowIndex(k, now) == Success(ProjectedIndices(p, now).value.borrow) <==>
            p.debts.total == 0 || p.lastUpdate == 0
  {
    hide Floor, Ceil, CappedLiquidityIndex, IRM.BorrowRate, IRM.LiquidityRate, BorrowRate;
    if p.debts.total > 0 && now > 0 {
      CeilPositive(p.debts.total, p.borrowIndex, RAY);
      var debt := TotalDebt(p);
      if debt <= MAX_UINT256 && p.available + debt <= MAX_UINT256 {
        IRM.UtilizationAtMostOne(p.available, debt);
        var u := Floor(debt, RAY, p.available + debt);
        BorrowRatesAgree(u);
        IRM.BorrowRateBounds(u);
        var rate := IRM.BorrowRate(u).value;
        OneRayGrows(Floor(rate, now, SECONDS_PER_YEAR));
        OneRayGrows(Floor(rate, now - p.lastUpdate, SECONDS_PER_YEAR));
        GrowthIsStrict(rate, now - p.lastUpdate, now);
        ZeroGrowth(rate);
      }
    }
  }

  lemma OneRayGrows(growth: nat)
    ensures Floor(RAY, RAY + growth, RAY) == RAY + growth
  {
  }

  lemma ZeroGrowth(rate: nat)
    ensures Floor(rate, 0, SECONDS_PER_YEAR) == 0
  {
  }

  /** Every second more adds to the growth. */
  lemma GrowthIsStrict(rate: nat, t: nat, t': nat)
    requires rate >= IRM.BASE_RATE && t <= t'
    ensures Floor(rate, t, SECONDS_PER_YEAR) == Floor(rate, t', SECONDS_PER_YEAR) <==> t == t'
  {
    hide Floor;
    if t < t' {
      var g := Floor(rate, t, SECONDS_PER_YEAR);
      FloorBounds(rate, t, SECONDS_PER_YEAR);
      MulMono(t + 1, t', rate);
      assert rate * (t + 1) == rate * t + rate;
      FloorGreatest(rate, t', SECONDS_PER_YEAR, g + 1);
    }
  }

  // Agreement on liquidations ----------------------------------------------------------------

  /** The engine's candidate, in the terms of the contract's caps, capped repayment and seizure. */
  function CandidateOf(risk: PositionRisk, prices: Prices, caps: Caps, requested: nat): Result<Option<Candidate>> {
    var repay :- CappedRepay(caps, risk.usdcDebt, requested);
    if repay == 0 then Success(None) else
    var repaidValue :- DebtValue(prices, repay);
    var computed :- SeizedForRepay(prices, repay);
    var seized := if caps.CollateralLimited(requested) then risk.wethCollateral else computed;
    if seized == 0 then Success(None) else
    var seizedValue :- CollateralValue(prices, seized);
    var bonus := if seizedValue > repaidValue then seizedValue - repaidValue else 0;
    var badDebt := if caps.CollateralLimited(requested) && risk.usdcDebt > repay then risk.usdcDebt - repay else 0;
    Success(Some(Candidate(repay, bonus, seized, badDebt)))
  }

  lemma CandidateByParts(risk: PositionRisk, market: MarketState, requestedRepay: Option<nat>)
    requires risk.liquidatable && risk.usdcDebt > 0 && risk.wethCollateral > 0
    requires CollateralValue(IndexedPrices(market), risk.wethCollateral) == Success(risk.collateralValue)
    requires requestedRepay.Some? ==> requestedRepay.value > 0
    ensures var prices := IndexedPrices(market);
            var requested := if requestedRepay.Some? then requestedRepay.value else risk.usdcDebt;
            var caps := RepayCaps(prices, risk.usdcDebt, risk.wethCollateral);
            BuildCandidate(risk, market, requestedRepay) ==
            if caps.Failure? then Failure(caps.error) else CandidateOf(risk, prices, caps.value, requested)
  {
    hide MulDivDown, Sub, Min, CollateralValue, DebtValue, CollateralAmountForValueDown, DebtAmountForValueDown;
  }

  /** It proposes exactly what the manager's sizing accepts, plus the collateral-limited repayments whose
      computed seizure rounds to zero. Whether the pool then executes it is another matter. */
  lemma CandidateMatchesSizing(risk: PositionRisk, market: MarketState, requestedRepay: Option<nat>)
    requires risk.liquidatable && risk.usdcDebt > 0 && risk.wethCollateral > 0
    requires market.wethPrice > 0 && market.usdcPrice > 0
    requires CollateralValue(IndexedPrices(market), risk.wethCollateral) == Success(risk.collateralValue)
    requires requestedRepay.Some? ==> requestedRepay.value > 0
    ensures var prices := IndexedPrices(market);
            var requested := if requestedRepay.Some? then requestedRepay.value else risk.usdcDebt;
            var sizing := CalculateLiquidation(prices, risk.usdcDebt, risk.wethCollateral, requested);
            var built := BuildCandidate(risk, market, requestedRepay);
            && (sizing.Success? ==>
                  && built.Success? && built.value.Some?
                  && built.value.value.maxRepay == sizing.value.repaidAmount
                  && built.value.value.expectedCollateral == sizing.value.collateralSeized)
            && (built.Success? && built.value.Some? ==>
                  && SeizedForRepay(prices, built.value.value.maxRepay).Success?
                  && (sizing.Success? <==> SeizedForRepay(prices, built.value.value.maxRepay).value != 0)
                  && (sizing.Failure? ==> sizing.error == LiquidationAmountTooSmall))
  {
    hide Floor, BuildCandidate, RepayCaps, CappedRepay, SeizedForRepay, DebtValue, CollateralValue;
    var prices := IndexedPrices(market);
    var requested := if requestedRepay.Some? then requestedRepay.value else risk.usdcDebt;
    CandidateByParts(risk, market, requestedRepay);
    var sizing := CalculateLiquidation(prices, risk.usdcDebt, risk.wethCollateral, requested);
    if sizing.Success? {
      SizingFitsPosition(prices, risk.usdcDebt, risk.wethCollateral, requested);
      LessCollateralHasValue(prices, sizing.value.collateralSeized, risk.wethCollateral);
      SeizedReadsTheDebt(prices, sizing.value.repaidAmount);
    }
  }

  /** Such a proposal exists: a single wei of collateral covers a repayment of one unit, worth less than one wei
      with the bonus on top, so the engine proposes to seize it and the manager, whatever is requested, finds
      nothing to seize. */
  lemma RejectedProposal(market: MarketState, requestedRepay: nat)
    requires market.wethPrice == 2_000_000_000_000 && market.usdcPrice == 1 && requestedRepay > 0
    ensures var risk := PositionRisk(1, 1_000_000, 20_000, 10_000_000_000, 15_000, 1_600_000_000_000, true);
            && CollateralValue(IndexedPrices(market), risk.wethCollateral) == Success(risk.collateralValue)
            && DebtValue(IndexedPrices(market), risk.usdcDebt) == Success(risk.debtValue)
            && MaxBorrow(IndexedPrices(market), risk.wethCollateral) == Success(risk.maxBorrow)
            && HealthFactor(IndexedPrices(market), risk.wethCollateral, risk.usdcDebt) == Success(risk.healthFactor)
            && risk.healthFactor < WAD
            && BuildCandidate(risk, market, None) == Success(Some(Candidate(1, 10_000, 1, 999_999)))
            && CalculateLiquidation(IndexedPrices(market), risk.usdcDebt, risk.wethCollateral, requestedRepay)
               == Failure(LiquidationAmountTooSmall)
  {
  }

  lemma LessCollateralHasValue(prices: Prices, less: nat, more: nat)
    requires less <= more && CollateralValue(prices, more).Success?
    ensures CollateralValue(prices, less).Success?
  {
    hide Floor;
    FloorMono(less, prices.weth.value, more, prices.weth.value, ORACLE_PRICE_SCALE);
  }

  lemma SeizedReadsTheDebt(prices: Prices, repay: nat)
    requires SeizedForRepay(prices, repay).Success?
    ensures DebtValue(prices, repay).Success?
  {
  }

  /** The bad debt the pool recognizes exceeds the prediction by at most the worth of one scaled unit. */
  lemma BadDebtPrediction(p: Storage, borrower: Address, risk: PositionRisk, market: MarketState,
                          requestedRepay: Option<nat>)
    requires Books(p) && risk.liquidatable && risk.usdcDebt == UserDebt(p, borrower) > 0
    requires risk.wethCollateral == p.collateral.BalanceOf(borrower) > 0
    requires market.wethPrice > 0 && market.usdcPrice > 0
    requires CollateralValue(IndexedPrices(market), risk.wethCollateral) == Success(risk.collateralValue)
    requires requestedRepay.Some? ==> requestedRepay.value > 0
    requires var requested := if requestedRepay.Some? then requestedRepay.value else risk.usdcDebt;
             var sizing := CalculateLiquidation(IndexedPrices(market), risk.usdcDebt, risk.wethCollateral, requested);
             sizing.Success? &&
             SeizeCollateral(p, borrower, sizing.value.repaidAmount, sizing.value.collateralSeized).Success?
    ensures var requested := if requestedRepay.Some? then requestedRepay.value else risk.usdcDebt;
            var s := CalculateLiquidation(IndexedPrices(market), risk.usdcDebt, risk.wethCollateral, requested).value;
            var recognized := SeizeCollateral(p, borrower, s.repaidAmount, s.collateralSeized).value.recognizedBadDebt;
            var built := BuildCandidate(risk, market, requestedRepay);
            && built.Success? && built.value.Some?
            && built.value.value.expectedBadDebt <= recognized
               <= built.value.value.expectedBadDebt + Ceil(1, p.borrowIndex, RAY)
  {
    hide Floor, Ceil, SeizeCollateral, ScaledDebtBurn, CalculateLiquidation;
    var requested := if requestedRepay.Some? then requestedRepay.value else risk.usdcDebt;
    var prices := IndexedPrices(market);
    CandidateMatchesSizing(risk, market, requestedRepay);
    SizingFitsPosition(prices, risk.usdcDebt, risk.wethCollateral, requested);
    var s := CalculateLiquidation(prices, risk.usdcDebt, risk.wethCollateral, requested).value;
    CandidateBadDebt(risk, market, requestedRepay);
    SeizeEffect(p, borrower, s.repaidAmount, s.collateralSeized);
    DebtBurnEffect(p, borrower, s.repaidAmount);
  }

  lemma CandidateBadDebt(risk: PositionRisk, market: MarketState, requestedRepay: Option<nat>)
    requires CollateralValue(IndexedPrices(market), risk.wethCollateral) == Success(risk.collateralValue)
    requires BuildCandidate(risk, market, requestedRepay).Success?
    requires BuildCandidate(risk, market, requestedRepay).value.Some?
    ensures var requested := if requestedRepay.Some? then requestedRepay.value else risk.usdcDebt;
            var c := BuildCandidate(risk, market, requestedRepay).value.value;
            var caps := RepayCaps(IndexedPrices(market), risk.usdcDebt, risk.wethCollateral);
            && caps.Success?
            && c.expectedBadDebt == if caps.value.CollateralLimited(requested) && risk.usdcDebt > c.maxRepay
                                    then risk.usdcDebt - c.maxRepay else 0
  {
    hide RepayCaps, CappedRepay, SeizedForRepay, DebtValue, CollateralValue, MulDivDown;
    CandidateByParts(risk, market, requestedRepay);
  }

  /** The bonus is the seized value beyond the repaid value, and unless the collateral is exhausted it is at most
      the configured five percent of what is repaid. */
  lemma CandidateBonus(risk: PositionRisk, market: MarketState, requestedRepay: Option<nat>)
    requires CollateralValue(IndexedPrices(market), risk.wethCollateral) == Success(risk.collateralValue)
    requires BuildCandidate(risk, market, requestedRepay).Success?
    requires BuildCandidate(risk, market, requestedRepay).value.Some?
    ensures var c := BuildCandidate(risk, market, requestedRepay).value.value;
            var prices := IndexedPrices(market);
            && CollateralValue(prices, c.expectedCollateral).Success? && DebtValue(prices, c.maxRepay).Success?
            && var seized := CollateralValue(prices, c.expectedCollateral).value;
               var repaid := DebtValue(prices, c.maxRepay).value;
               && c.expectedBonus == (if seized > repaid then seized - repaid else 0)
               && (c.expectedCollateral == risk.wethCollateral
                   || c.expectedBonus * BPS <= repaid * LIQUIDATION_BONUS_BPS)
  {
    hide RepayCaps, CappedRepay, SeizedForRepay, DebtValue, CollateralValue, MulDivDown;
    CandidateByParts(risk, market, requestedRepay);
    var c := BuildCandidate(risk, market, requestedRepay).value.value;
    if c.expectedCollateral != risk.wethCollateral {
      SeizedWorthAtMostBonus(IndexedPrices(market), c.maxRepay);
    }
  }

  /** Seizing for a repayment takes collateral worth at most the repaid value and the bonus on top. */
  lemma SeizedWorthAtMostBonus(prices: Prices, repay: nat)
    requires SeizedForRepay(prices, repay).Success?
    requires CollateralValue(prices, SeizedForRepay(prices, repay).value).Success?
    ensures DebtValue(prices, repay).Success?
    ensures CollateralValue(prices, SeizedForRepay(prices, repay).value).value * BPS
              <= DebtValue(prices, repay).value * (BPS + LIQUIDATION_BONUS_BPS)
  {
    hide Floor, DebtValue;
    var repaid, w := DebtValue(prices, repay).value, prices.weth.value;
    var withBonus := Floor(repaid, BPS + LIQUIDATION_BONUS_BPS, BPS);
    FloorBounds(repaid, BPS + LIQUIDATION_BONUS_BPS, BPS);
    var seized := Floor(withBonus, ORACLE_PRICE_SCALE, w);
    FloorBounds(withBonus, ORACLE_PRICE_SCALE, w);
    FloorBounds(seized, w, ORACLE_PRICE_SCALE);
    MulCancel(Floor(seized, w, ORACLE_PRICE_SCALE), withBonus, ORACLE_PRICE_SCALE);
  }

  /** The computation as the engine performs it, reassigning the limit, the repayment and the seizure. */
  method ComputeCandidate(risk: PositionRisk, market: MarketState, requestedRepay: Option<nat>)
    returns (r: Result<Option<Candidate>>)
    ensures r == BuildCandidate(risk, market, requestedRepay)
  {
    hide MulDivDown, Sub, Min, CollateralValue, DebtValue;
    if !risk.liquidatable || risk.usdcDebt == 0 || risk.wethCollateral == 0 {
      return Success(None);
    }
    var debt, collateral := risk.usdcDebt, risk.wethCollateral;
    var requested := if requestedRepay.Some? then requestedRepay.value else debt;
    if requested == 0 {
      return Success(None);
    }
    var closeFactorLimit :- MulDivDown(debt, CLOSE_FACTOR_BPS, BPS);
    var rest :- Sub(debt, closeFactorLimit);
    if rest < MINIMUM_USDC_BORROW {
      closeFactorLimit := debt;
    }
    var limitedValue :- MulDivDown(risk.collateralValue, BPS, BPS + LIQUIDATION_BONUS_BPS);
    var valueAtTokenPrecision :- MulDivDown(limitedValue, 1, market.usdcPrice);
    var limitedRepay :- MulDivDown(valueAtTokenPrecision, 1, BPS);
    var repay := Min(requested, Min(closeFactorLimit, limitedRepay));
    var collateralLimited := limitedRepay <= requested && limitedRepay <= closeFactorLimit;
    var remaining :- Sub(debt, repay);
    if !collateralLimited && remaining != 0 && remaining < MINIMUM_USDC_BORROW {
      repay :- Sub(debt, MINIMUM_USDC_BORROW);
    }
    if repay == 0 {
      return Success(None);
    }
    var repaidValue :- DebtValue(IndexedPrices(market), repay);
    var valueWithBonus :- MulDivDown(repaidValue, BPS + LIQUIDATION_BONUS_BPS, BPS);
    var collateralSeized :- MulDivDown(valueWithBonus, ORACLE_PRICE_SCALE, market.wethPrice);
    if collateralLimited {
      collateralSeized := collateral;
    }
    if collateralSeized == 0 {
      return Success(None);
    }
    var seizedValue :- CollateralValue(IndexedPrices(market), collateralSeized);
    var bonus := if seizedValue > repaidValue then seizedValue - repaidValue else 0;
    var badDebt := if collateralLimited && debt > repay then debt - repay else 0;
    return Success(Some(Candidate(repay, bonus, collateralSeized, badDebt)));
  }
}
