/** End to end: from indexed logs alone, the risk engine predicts what a liquidation will do on chain. */
module EnginePrediction {
  import opened Results
  import opened FixedPoint
  import opened RiskManager
  import opened Pool
  import opened LiquidationManager
  import opened PoolEffects
  import opened Protocol
  import opened Positions
  import opened StateProjector
  import opened ProjectorRefinement
  import opened RiskCalculator

  /** What a successful manager call executed, on the storage accrued to the block time. */
  lemma ExecutedSizing(m: Market, c: Chain, tx: Tx)
    requires tx.call.LiquidateCall? && Transact(m, c, tx).Success?
    ensures var prices := PricesAt(m, c.oracle, tx.now);
            var position := ValidatedPosition(c.pool, prices, tx.now, tx.call.borrower);
            && position.Success? && AccrueInterest(c.pool, tx.now).Success?
            && tx.call.requestedRepay > 0
            && var sizing := CalculateLiquidation(prices, position.value.debt, position.value.collateral,
                                                  tx.call.requestedRepay);
               && sizing.Success?
               && var seizure := SeizeCollateral(Accrued(c.pool, tx.now), tx.call.borrower,
                                                 sizing.value.repaidAmount, sizing.value.collateralSeized);
                  && seizure.Success?
                  && Next(m, c, tx).after.pool == seizure.value.after
                  && Liquidated(tx.call.sender, tx.call.borrower, m.usdc, m.weth, sizing.value.repaidAmount,
                                sizing.value.collateralSeized) in Next(m, c, tx).events
  {
    hide AccrueInterest, ValidatedPosition, CalculateLiquidation, SeizeCollateral;
  }

  /** The engine's view of the borrower, just before a liquidation that the chain accepts. */
  lemma EngineReadsPosition(m: Market, c: Chain, d: DerivedState, tx: Tx)
    requires Sound(c.pool) && OracleSound(c.oracle) && Mirrors(m, c, d)
    requires ClockAgrees(c.pool, d.market) && tx.now <= MAX_UINT64
    requires EngineFresh(d.market, tx.now)
    requires tx.call.LiquidateCall? && Transact(m, c, tx).Success?
    ensures var prices := PricesAt(m, c.oracle, tx.now);
            var risk := EvaluateIndexed(PositionOf(d, tx.call.borrower), d.market, tx.now);
            var position := ValidatedPosition(c.pool, prices, tx.now, tx.call.borrower);
            && prices == IndexedPrices(d.market) && d.market.wethPrice > 0 && d.market.usdcPrice > 0
            && risk.Success? && position.Success? && risk.value.liquidatable
            && risk.value.usdcDebt == position.value.debt && risk.value.wethCollateral == position.value.collateral > 0
            && CollateralValue(prices, risk.value.wethCollateral) == Success(risk.value.collateralValue)
  {
    hide Floor, Ceil, AccrueInterest, CalculateLiquidation, SeizeCollateral, EvaluateIndexed, Transact, CollateralValue,
         UsdcDebt, HealthFactor;
    ExecutedSizing(m, c, tx);
    HealthAgrees(m, c, d, tx.call.borrower, tx.now);
    EnginePrices(m, c, d, tx.now);
  }

  /** A candidate built from a mirror that knows the time predicts the liquidation exactly, and its bad debt to within
      one scaled unit. */
  lemma MirrorPredictsLiquidation(m: Market, c: Chain, d: DerivedState, tx: Tx)
    requires Sound(c.pool) && OracleSound(c.oracle) && Mirrors(m, c, d)
    requires ClockAgrees(c.pool, d.market) && tx.now <= MAX_UINT64
    requires EngineFresh(d.market, tx.now)
    requires tx.call.LiquidateCall? && Transact(m, c, tx).Success?
    ensures var risk := EvaluateIndexed(PositionOf(d, tx.call.borrower), d.market, tx.now);
            && risk.Success?
            && var built := BuildCandidate(risk.value, d.market, Some(tx.call.requestedRepay));
               && built.Success? && built.value.Some?
               && var candidate := built.value.value;
                  var q := Next(m, c, tx).after.pool;
                  && Liquidated(tx.call.sender, tx.call.borrower, m.usdc, m.weth, candidate.maxRepay,
                                candidate.expectedCollateral) in Next(m, c, tx).events
                  && candidate.expectedBadDebt <= q.badDebt - c.pool.badDebt
                     <= candidate.expectedBadDebt + Ceil(1, q.borrowIndex, RAY)
  {
    hide Floor, Ceil, AccrueInterest, CalculateLiquidation, SeizeCollateral, EvaluateIndexed, BuildCandidate, Transact,
         CollateralValue, ScaledDebtBurn, Next, Mirrors, OracleSound, EngineFresh, ValidatedPosition,
         IndexedPrices;
    var borrower := tx.call.borrower;
    var prices := PricesAt(m, c.oracle, tx.now);
    ExecutedSizing(m, c, tx);
    EngineReadsPosition(m, c, d, tx);
    AccruedBooks(c.pool, tx.now);
    ManagerReadsAccruedPosition(c.pool, prices, tx.now, borrower);
    var p := Accrued(c.pool, tx.now);
    var risk := EvaluateIndexed(PositionOf(d, borrower), d.market, tx.now).value;
    CandidateMatchesSizing(risk, d.market, Some(tx.call.requestedRepay));
    BadDebtPrediction(p, borrower, risk, d.market, Some(tx.call.requestedRepay));
    var s := CalculateLiquidation(prices, risk.usdcDebt, risk.wethCollateral, tx.call.requestedRepay).value;
    SeizeEffect(p, borrower, s.repaidAmount, s.collateralSeized);
  }

  /** For every run in which interest has accrued at least once: whenever the chain accepts a liquidation, the
      engine, knowing only the logs, predicted its amounts. */
  lemma EnginePredictsLiquidation(m: Market, deployedAt: nat, txs: seq<Tx>, logs: seq<RawLog>, tx: Tx)
    requires m.weth != m.usdc
    requires Carries(logs, Run(m, Genesis(deployedAt), txs).events)
    requires Accrues(Run(m, Genesis(deployedAt), txs).events) || deployedAt == 0
    requires tx.now <= MAX_UINT64 && tx.call.LiquidateCall?
    requires Transact(m, Run(m, Genesis(deployedAt), txs).after, tx).Success?
    requires ApplyAll(m, CreateInitialState(), logs).Success? ==>
               EngineFresh(ApplyAll(m, CreateInitialState(), logs).value.market, tx.now)
    ensures var c := Run(m, Genesis(deployedAt), txs).after;
            var indexed := ApplyAll(m, CreateInitialState(), logs);
            && indexed.Success?
            && var risk := EvaluateIndexed(PositionOf(indexed.value, tx.call.borrower), indexed.value.market, tx.now);
               && risk.Success?
               && var built := BuildCandidate(risk.value, indexed.value.market, Some(tx.call.requestedRepay));
                  && built.Success? && built.value.Some?
                  && var candidate := built.value.value;
                     var q := Next(m, c, tx).after.pool;
                     && Liquidated(tx.call.sender, tx.call.borrower, m.usdc, m.weth, candidate.maxRepay,
                                   candidate.expectedCollateral) in Next(m, c, tx).events
                     && candidate.expectedBadDebt <= q.badDebt - c.pool.badDebt
                        <= candidate.expectedBadDebt + Ceil(1, q.borrowIndex, RAY)
  {
    hide Run, ApplyAll, Transact, Next, EvaluateIndexed, BuildCandidate, EngineFresh, Mirrors, Sound,
         OracleSound, Ceil, Floor, Carries;
    ProjectorRefinesPool(m, deployedAt, txs, logs);
    OracleAlwaysSound(m, deployedAt, txs);
    MirrorPredictsLiquidation(m, Run(m, Genesis(deployedAt), txs).after,
                              ApplyAll(m, CreateInitialState(), logs).value, tx);
  }
}
