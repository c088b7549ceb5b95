/** What becomes of a liquidation that the risk engine proposes: exactly when the chain executes it, and with which
    error it reverts otherwise. */
module ProposalOutcome {
  import opened Results
  import opened FixedPoint
  import opened Ledgers
  import opened RiskManager
  import opened Pool
  import opened LiquidationManager
  import opened AccrualSoundness
  import opened PoolEffects
  import opened Protocol
  import opened PoolOutcomes
  import opened Positions
  import opened StateProjector
  import opened ProjectorRefinement
  import opened RiskCalculator

  // The call -----------------------------------------------------------------------------------

  /** A call to the manager that liquidates in this market; no transaction comes from the zero address. */
  predicate Targets(m: Market, tx: Tx) {
    && tx.call.LiquidateCall? && tx.call.sender != 0 && tx.call.borrower != 0
    && tx.call.debtAsset == m.usdc && tx.call.collateralAsset == m.weth && tx.call.requestedRepay > 0
  }

  /** Accruing, or what the liquidation adds after it, overflows 256 bits. */
  ghost predicate Overflows(p: Storage, now: nat, borrower: Address, repaid: nat, seized: nat)
    requires Books(p)
  {
    || AccrueInterest(p, now).Failure?
    || (AccruedBooks(p, now); !HasRoom(Accrued(p, now), borrower, repaid, seized))
  }

  /** Once the manager has sized a liquidation, the pool executes it unless it is below one scaled unit or
      something overflows. */
  lemma SizedCallOutcome(m: Market, c: Chain, tx: Tx, position: Position, sizing: Sizing)
    requires Sound(c.pool) && Targets(m, tx) && c.pool.lastUpdate <= tx.now
    requires ValidatedPosition(c.pool, PricesAt(m, c.oracle, tx.now), tx.now, tx.call.borrower) == Success(position)
    requires CalculateLiquidation(PricesAt(m, c.oracle, tx.now), position.debt, position.collateral,
                                  tx.call.requestedRepay) == Success(sizing)
    requires tx.call.minCollateralOut <= sizing.collateralSeized
    ensures var r := Transact(m, c, tx);
            var overflows := Overflows(c.pool, tx.now, tx.call.borrower, sizing.repaidAmount, sizing.collateralSeized);
            var small := BelowOneUnit(Accrued(c.pool, tx.now), tx.call.borrower, sizing.repaidAmount);
            match r
            case Success(outcome) =>
              && !small && !overflows
              && Liquidated(tx.call.sender, tx.call.borrower, m.usdc, m.weth, sizing.repaidAmount,
                            sizing.collateralSeized) in outcome.events
            case Failure(e) => (e == ScaledAmountTooSmall && small) || (e == Overflow && overflows)
  {
    hide Floor, Ceil, AccrueInterest, ValidatedPosition, CalculateLiquidation, SeizeCollateral, HasRoom, BelowOneUnit;
    var prices, borrower := PricesAt(m, c.oracle, tx.now), tx.call.borrower;
    SizingFitsPosition(prices, position.debt, position.collateral, tx.call.requestedRepay);
    ValidatedHasCollateral(c.pool, prices, tx.now, borrower);
    SizingSeizes(prices, position, tx.call.requestedRepay);
    AccrualIsSound(c.pool, tx.now);
    if AccrueInterest(c.pool, tx.now).Success? {
      AccruedSound(c.pool, tx.now);
      ManagerReadsAccruedPosition(c.pool, prices, tx.now, borrower);
      SeizeOutcome(Accrued(c.pool, tx.now), borrower, sizing.repaidAmount, sizing.collateralSeized);
    }
  }

  lemma ValidatedHasCollateral(p: Storage, prices: Prices, now: nat, borrower: Address)
    requires ValidatedPosition(p, prices, now, borrower).Success?
    ensures ValidatedPosition(p, prices, now, borrower).value.collateral > 0
  {
    hide UsdcDebt, HealthFactor;
  }

  lemma SizingSeizes(prices: Prices, position: Position, requestedRepay: nat)
    requires CalculateLiquidation(prices, position.debt, position.collateral, requestedRepay).Success?
    ensures var sizing := CalculateLiquidation(prices, position.debt, position.collateral, requestedRepay).value;
            position.collateral > 0 ==> sizing.collateralSeized > 0
  {
    hide RepayCaps, CappedRepay, SeizedForRepay;
  }

  /** Why a call to the manager reverts with an error. */
  ghost predicate ManagerRejects(m: Market, c: Chain, tx: Tx, e: Error)
    requires Books(c.pool) && tx.call.LiquidateCall?
  {
    var call, prices := tx.call, PricesAt(m, c.oracle, tx.now);
    var debt, collateral := UsdcDebt(c.pool, tx.now, call.borrower), c.pool.collateral.BalanceOf(call.borrower);
    || (e == InvalidAddress && call.borrower == 0)
    || (e == UnsupportedDebtAsset && call.debtAsset != m.usdc)
    || (e == UnsupportedCollateralAsset && call.collateralAsset != m.weth)
    || (e == ZeroAmount && call.requestedRepay == 0)
    || (e == Overflow && debt.Failure?)
    || (e == PositionHasNoDebt && debt == Success(0))
    || (e == PositionHasNoCollateral && collateral == 0)
    || (debt.Success? && debt.value > 0 && collateral > 0
        && PositionRejects(c.pool, prices, tx, debt.value, collateral, e))
  }

  /** What speaks against liquidating a position with debt and collateral. */
  ghost predicate PositionRejects(p: Storage, prices: Prices, tx: Tx, debt: nat, collateral: nat, e: Error)
    requires Books(p) && tx.call.LiquidateCall?
  {
    var sizing := CalculateLiquidation(prices, debt, collateral, tx.call.requestedRepay);
    || prices.weth == Failure(e) || prices.usdc == Failure(e)
    || (e == Overflow && ValueOverflows(prices, collateral, debt))
    || (e.PositionIsHealthy? && PricesKnown(prices) && OwedValue(prices, debt) > 0
        && OwedValue(prices, debt) * 10_000 <= ValueOf(prices, collateral) * 8_000
        && e.currentHealthFactor == HealthOf(ValueOf(prices, collateral), OwedValue(prices, debt)))
    || sizing == Failure(e)
    || (sizing.Success? && SizedRejects(p, tx, sizing.value, e))
  }

  ghost predicate SizedRejects(p: Storage, tx: Tx, sizing: Sizing, e: Error)
    requires Books(p) && tx.call.LiquidateCall?
  {
    var call := tx.call;
    || (e == CollateralOutputBelowMinimum(sizing.collateralSeized, call.minCollateralOut)
        && sizing.collateralSeized < call.minCollateralOut)
    || (e == ScaledAmountTooSmall && BelowOneUnit(Accrued(p, tx.now), call.borrower, sizing.repaidAmount))
    || (e == Overflow && Overflows(p, tx.now, call.borrower, sizing.repaidAmount, sizing.collateralSeized))
  }

  /** A call to the manager succeeds exactly when nothing speaks against it, and reverts with an error that does; no
      transaction comes from the zero address. */
  lemma ManagerOutcome(m: Market, c: Chain, tx: Tx)
    requires Sound(c.pool) && c.pool.lastUpdate <= tx.now && tx.call.LiquidateCall? && tx.call.sender != 0
    ensures match Transact(m, c, tx)
            case Success(_) => forall e :: !ManagerRejects(m, c, tx, e)
            case Failure(e) => ManagerRejects(m, c, tx, e)
  {
    hide AccrueInterest, UsdcDebt, HealthFactor, CalculateLiquidation, SeizeCollateral, PositionRejects, PricesAt;
    var debt := UsdcDebt(c.pool, tx.now, tx.call.borrower);
    var collateral := c.pool.collateral.BalanceOf(tx.call.borrower);
    DebtOverflows(c.pool, tx.now, tx.call.borrower);
    if debt.Success? && debt.value > 0 && collateral > 0 {
      PositionOutcome(m, c, tx, debt.value, collateral);
    }
  }

  lemma DebtOverflows(p: Storage, now: nat, borrower: Address)
    requires Books(p) && p.lastUpdate <= now
    ensures UsdcDebt(p, now, borrower).Failure? ==> UsdcDebt(p, now, borrower).error == Overflow
  {
    hide ProjectedIndices, Ceil;
    ProjectionSound(p, now);
  }

  /** The part of the call that looks at the position. */
  lemma PositionOutcome(m: Market, c: Chain, tx: Tx, debt: nat, collateral: nat)
    requires Sound(c.pool) && c.pool.lastUpdate <= tx.now && tx.call.LiquidateCall? && debt > 0 && collateral > 0
    requires UsdcDebt(c.pool, tx.now, tx.call.borrower) == Success(debt)
    requires collateral == c.pool.collateral.BalanceOf(tx.call.borrower)
    ensures var prices := PricesAt(m, c.oracle, tx.now);
            match Transact(m, c, tx)
            case Success(_) => forall e :: !PositionRejects(c.pool, prices, tx, debt, collateral, e)
            case Failure(e) => Targets(m, tx) ==> PositionRejects(c.pool, prices, tx, debt, collateral, e)
  {
    hide Floor, AccrueInterest, UsdcDebt, HealthFactor, CalculateLiquidation, SeizeCollateral, ValueOverflows, HealthOf,
         SizedRejects;
    var prices, call := PricesAt(m, c.oracle, tx.now), tx.call;
    HealthOutcome(prices, collateral, debt);
    if PricesKnown(prices) {
      CapacityIsHealthy(prices, collateral, debt);
    }
    var sizing := CalculateLiquidation(prices, debt, collateral, call.requestedRepay);
    if ValidatedPosition(c.pool, prices, tx.now, call.borrower).Success? && sizing.Success? && Targets(m, tx) {
      SizedOutcome(m, c, tx, Position(debt, collateral), sizing.value);
    }
  }

  lemma SizedOutcome(m: Market, c: Chain, tx: Tx, position: Position, sizing: Sizing)
    requires Sound(c.pool) && Targets(m, tx) && c.pool.lastUpdate <= tx.now
    requires ValidatedPosition(c.pool, PricesAt(m, c.oracle, tx.now), tx.now, tx.call.borrower) == Success(position)
    requires CalculateLiquidation(PricesAt(m, c.oracle, tx.now), position.debt, position.collateral,
                                  tx.call.requestedRepay) == Success(sizing)
    ensures match Transact(m, c, tx)
            case Success(_) => forall e :: !SizedRejects(c.pool, tx, sizing, e)
            case Failure(e) => SizedRejects(c.pool, tx, sizing, e)
  {
    hide AccrueInterest, ValidatedPosition, CalculateLiquidation, SeizeCollateral, BelowOneUnit, Overflows;
    if tx.call.minCollateralOut <= sizing.collateralSeized {
      hide Transact;
      SizedCallOutcome(m, c, tx, position, sizing);
    }
  }

  // The proposal -------------------------------------------------------------------------------

  /** The engine evaluates the borrower's indexed position at `now`, and proposes this. */
  ghost predicate Proposes(d: DerivedState, now: nat, borrower: Address, request: Option<nat>, candidate: Candidate) {
    var risk := EvaluateIndexed(PositionOf(d, borrower), d.market, now);
    risk.Success? && BuildCandidate(risk.value, d.market, request) == Success(Some(candidate))
  }

  /** What a call that asks for a proposal comes to: it succeeds, with the proposed amounts, if and only if the
      repayment's worth in collateral does not round to zero, the repayment is the whole debt or worth a scaled
      unit at the accrued index, and nothing overflows. */
  ghost predicate Decides(m: Market, c: Chain, tx: Tx, candidate: Candidate)
    requires Books(c.pool) && tx.call.LiquidateCall?
  {
    var worth := SeizedForRepay(PricesAt(m, c.oracle, tx.now), candidate.maxRepay);
    var small := BelowOneUnit(Accrued(c.pool, tx.now), tx.call.borrower, candidate.maxRepay);
    var overflows := Overflows(c.pool, tx.now, tx.call.borrower, candidate.maxRepay, candidate.expectedCollateral);
    && worth.Success?
    && match Transact(m, c, tx)
       case Success(outcome) =>
         && worth.value != 0 && !small && !overflows
         && Liquidated(tx.call.sender, tx.call.borrower, m.usdc, m.weth, candidate.maxRepay,
                       candidate.expectedCollateral) in outcome.events
       case Failure(e) =>
         || (e == LiquidationAmountTooSmall && worth.value == 0)
         || (e == ScaledAmountTooSmall && small)
         || (e == Overflow && overflows)
  }

  /** The figures a proposal rests on. */
  lemma ProposalRisk(d: DerivedState, now: nat, borrower: Address, request: Option<nat>, candidate: Candidate)
    requires Proposes(d, now, borrower, request, candidate)
    ensures var risk := EvaluateIndexed(PositionOf(d, borrower), d.market, now).value;
            && risk.liquidatable && risk.usdcDebt > 0 && risk.wethCollateral > 0
            && EngineFresh(d.market, now) && d.market.wethPrice > 0 && d.market.usdcPrice > 0
            && CollateralValue(IndexedPrices(d.market), risk.wethCollateral) == Success(risk.collateralValue)
            && (request.Some? ==> request.value > 0)
  {
    hide ProjectedBorrowIndex, DebtAtIndex, MulDivDown, CollateralValue, DebtValue, DebtAmountForValueDown,
         CollateralAmountForValueDown, Min, Sub;
  }

  lemma ProposalPrices(m: Market, c: Chain, d: DerivedState, now: nat)
    requires OracleSound(c.oracle) && Mirrors(m, c, d) && EngineFresh(d.market, now) && now <= MAX_UINT64
    ensures PricesAt(m, c.oracle, now) == IndexedPrices(d.market)
  {
    EnginePrices(m, c, d, now);
  }

  /** While the pool can project its indices, the manager validates the position the engine saw. */
  lemma ProposalValidated(m: Market, c: Chain, d: DerivedState, tx: Tx, candidate: Candidate)
    requires Sound(c.pool) && OracleSound(c.oracle) && Mirrors(m, c, d) && ClockAgrees(c.pool, d.market)
    requires tx.now <= MAX_UINT64 && tx.call.LiquidateCall? && ProjectedIndices(c.pool, tx.now).Success?
    requires Proposes(d, tx.now, tx.call.borrower, Some(tx.call.requestedRepay), candidate)
    ensures var risk := EvaluateIndexed(PositionOf(d, tx.call.borrower), d.market, tx.now).value;
            && PricesAt(m, c.oracle, tx.now) == IndexedPrices(d.market)
            && ValidatedPosition(c.pool, PricesAt(m, c.oracle, tx.now), tx.now, tx.call.borrower)
               == Success(Position(risk.usdcDebt, risk.wethCollateral))
  {
    hide Floor, Ceil, ProjectedIndices, ProjectedBorrowIndex, BuildCandidate, HealthFactor, EngineFresh,
         CollateralValue, DebtValue, MaxBorrow, MirrorsTotals, MirrorsPrices, Evaluate;
    ProposalRisk(d, tx.now, tx.call.borrower, Some(tx.call.requestedRepay), candidate);
    IndicesAgree(m, c, d, tx.now);
    assert PositionOf(d, tx.call.borrower).scaledUsdcDebt == c.pool.debts.BalanceOf(tx.call.borrower);
    HealthAgrees(m, c, d, tx.call.borrower, tx.now);
    ProposalPrices(m, c, d, tx.now);
  }

  /** When the pool cannot, the call overflows. */
  lemma ProjectionOverflows(m: Market, c: Chain, tx: Tx, repaid: nat, seized: nat)
    requires Books(c.pool) && Targets(m, tx) && c.pool.lastUpdate <= tx.now
    requires ProjectedIndices(c.pool, tx.now).Failure?
    ensures Transact(m, c, tx) == Failure(Overflow) && Overflows(c.pool, tx.now, tx.call.borrower, repaid, seized)
  {
    hide ProjectedIndices, CalculateLiquidation, ExecuteLiquidation, HealthFactor, MulDivUp;
    ProjectionSound(c.pool, tx.now);
    SameBlockProjects(c.pool);
  }

  lemma SameBlockProjects(p: Storage)
    ensures ProjectedIndices(p, p.lastUpdate).Success?
  {
  }

  /** On a mirror that knows the time, this decides what becomes of a proposal. */
  lemma MirrorDecides(m: Market, c: Chain, d: DerivedState, tx: Tx, candidate: Candidate)
    requires Sound(c.pool) && OracleSound(c.oracle) && Mirrors(m, c, d) && ClockAgrees(c.pool, d.market)
    requires c.pool.lastUpdate <= tx.now <= MAX_UINT64 && Targets(m, tx)
    requires Proposes(d, tx.now, tx.call.borrower, Some(tx.call.requestedRepay), candidate)
    requires tx.call.minCollateralOut <= candidate.expectedCollateral
    ensures Decides(m, c, tx, candidate)
  {
    hide Floor, Ceil, ProjectedIndices, EvaluateIndexed, BuildCandidate, SeizedForRepay, CalculateLiquidation, Transact,
         Mirrors, ValidatedPosition, BelowOneUnit, Overflows, CollateralValue, EngineFresh, AccrueInterest;
    ProposalRisk(d, tx.now, tx.call.borrower, Some(tx.call.requestedRepay), candidate);
    var risk := EvaluateIndexed(PositionOf(d, tx.call.borrower), d.market, tx.now).value;
    assert PricesAt(m, c.oracle, tx.now) == IndexedPrices(d.market) by { ProposalPrices(m, c, d, tx.now); }
    CandidateMatchesSizing(risk, d.market, Some(tx.call.requestedRepay));
    if ProjectedIndices(c.pool, tx.now).Success? {
      ProposalValidated(m, c, d, tx, candidate);
      var sizing := CalculateLiquidation(PricesAt(m, c.oracle, tx.now), risk.usdcDebt, risk.wethCollateral,
                                         tx.call.requestedRepay);
      if sizing.Success? {
        SizedCallOutcome(m, c, tx, Position(risk.usdcDebt, risk.wethCollateral), sizing.value);
      } else {
        UnsizedCallReverts(m, c, tx, Position(risk.usdcDebt, risk.wethCollateral));
      }
    } else {
      ProjectionOverflows(m, c, tx, candidate.maxRepay, candidate.expectedCollateral);
    }
  }

  lemma UnsizedCallReverts(m: Market, c: Chain, tx: Tx, position: Position)
    requires Targets(m, tx)
    requires ValidatedPosition(c.pool, PricesAt(m, c.oracle, tx.now), tx.now, tx.call.borrower) == Success(position)
    requires CalculateLiquidation(PricesAt(m, c.oracle, tx.now), position.debt, position.collateral,
                                  tx.call.requestedRepay).Failure?
    ensures Transact(m, c, tx) == Failure(CalculateLiquidation(PricesAt(m, c.oracle, tx.now), position.debt,
                                                               position.collateral, tx.call.requestedRepay).error)
  {
    hide ValidatedPosition, CalculateLiquidation;
  }

  // What the liquidator sends --------------------------------------------------------------------

  lemma CapIsStable(caps: Caps, debt: nat, requestedRepay: nat)
    requires CappedRepay(caps, debt, requestedRepay).Success?
    ensures var repay := CappedRepay(caps, debt, requestedRepay).value;
            && CappedRepay(caps, debt, repay) == Success(repay)
            && (caps.CollateralLimited(repay) <==> caps.CollateralLimited(requestedRepay))
  {
  }

  /** Asking for what was proposed gives the same proposal again. */
  lemma ProposalIsStable(d: DerivedState, now: nat, borrower: Address, request: Option<nat>, candidate: Candidate)
    requires Proposes(d, now, borrower, request, candidate)
    ensures candidate.maxRepay > 0 && Proposes(d, now, borrower, Some(candidate.maxRepay), candidate)
  {
    hide Floor, EvaluateIndexed, BuildCandidate, RepayCaps, CappedRepay, SeizedForRepay, DebtValue, CollateralValue,
         EngineFresh;
    ProposalRisk(d, now, borrower, request, candidate);
    var risk := EvaluateIndexed(PositionOf(d, borrower), d.market, now).value;
    var requested := if request.Some? then request.value else risk.usdcDebt;
    CandidateByParts(risk, d.market, request);
    var caps := RepayCaps(IndexedPrices(d.market), risk.usdcDebt, risk.wethCollateral).value;
    CapIsStable(caps, risk.usdcDebt, requested);
    CandidateByParts(risk, d.market, Some(candidate.maxRepay));
  }

  /** The call of the liquidator: what was proposed, for a share of the expected collateral. */
  function ProposedCall(m: Market, sender: Address, borrower: Address, candidate: Candidate, minimumCollateralBps: nat)
    : Call
  {
    LiquidateCall(sender, borrower, m.usdc, m.weth, candidate.maxRepay,
                  Floor(candidate.expectedCollateral, minimumCollateralBps, BPS))
  }

  /** For every run, once interest has accrued: whatever the engine proposes from the logs alone, the liquidator's
      call for it is decided by the three conditions. */
  lemma EngineProposalDecided(m: Market, deployedAt: nat, txs: seq<Tx>, logs: seq<RawLog>, now: nat, sender: Address,
                              borrower: Address, request: Option<nat>, candidate: Candidate, minimumCollateralBps: nat)
    requires m.weth != m.usdc && sender != 0 && borrower != 0 && minimumCollateralBps <= BPS
    requires Carries(logs, Run(m, Genesis(deployedAt), txs).events)
    requires Accrues(Run(m, Genesis(deployedAt), txs).events) || deployedAt == 0
    requires Run(m, Genesis(deployedAt), txs).after.pool.lastUpdate <= now <= MAX_UINT64
    requires ApplyAll(m, CreateInitialState(), logs).Success? ==>
               Proposes(ApplyAll(m, CreateInitialState(), logs).value, now, borrower, request, candidate)
    ensures var c := Run(m, Genesis(deployedAt), txs).after;
            && Books(c.pool)
            && Decides(m, c, Tx(now, ProposedCall(m, sender, borrower, candidate, minimumCollateralBps)), candidate)
  {
    hide Run, ApplyAll, Proposes, Decides, Mirrors, Sound, OracleSound, Floor, Carries, Accrues;
    ProjectorRefinesPool(m, deployedAt, txs, logs);
    OracleAlwaysSound(m, deployedAt, txs);
    var c, d := Run(m, Genesis(deployedAt), txs).after, ApplyAll(m, CreateInitialState(), logs).value;
    assert Books(c.pool) by { SoundBooks(c.pool); }
    ProposalIsStable(d, now, borrower, request, candidate);
    ShareWithin(candidate.expectedCollateral, minimumCollateralBps);
    MirrorDecides(m, c, d, Tx(now, ProposedCall(m, sender, borrower, candidate, minimumCollateralBps)), candidate);
  }
}
