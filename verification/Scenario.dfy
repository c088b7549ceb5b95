/** Runs from deployment that show where the protocol's expectations stop. */
module Scenario {
  import opened Results
  import opened FixedPoint
  import opened Ledgers
  import opened RiskManager
  import opened Pool
  import opened LiquidationManager
  import opened PoolEffects
  import opened Protocol
  import opened StateProjector
  import opened ProjectorRefinement
  import opened RiskCalculator
  import opened ProposalOutcome
  import IRM = InterestRateModel

  const WETH: Address := 101
  const USDC: Address := 102
  const MARKET := Market(WETH, USDC)

  const SUPPLIER: Address := 3
  const BORROWER: Address := 2
  const LATECOMER: Address := 1

  const MAX_AGE: nat := 100 * SECONDS_PER_YEAR
  const WETH_PRICE: nat := 300_000_000_000
  const USDC_PRICE: nat := 100_000_000

  /** 0.0018 WETH, worth 5.4 USD. */
  const COLLATERAL: nat := 1_800_000_000_000_000
  const SUPPLY: nat := 5_000_005
  const DEBT: nat := 4_000_004

  /** Everything up to the first borrow, in the block of the deployment. */
  function DeploymentBlock(now: nat): seq<Tx> {
    [Tx(now, RegisterAssetCall(WETH, MAX_AGE)),
     Tx(now, RegisterAssetCall(USDC, MAX_AGE)),
     Tx(now, SetPriceCall(WETH, WETH_PRICE)),
     Tx(now, SetPriceCall(USDC, USDC_PRICE)),
     Tx(now, SupplyCall(SUPPLIER, USDC, SUPPLY)),
     Tx(now, SupplyCall(BORROWER, WETH, COLLATERAL)),
     Tx(now, SupplyCall(LATECOMER, WETH, WAD)),
     Tx(now, BorrowCall(BORROWER, USDC, DEBT))]
  }

  function OracleAt(now: nat): Oracle {
    map[WETH := AssetPrice(WETH_PRICE, now, MAX_AGE, 0), USDC := AssetPrice(USDC_PRICE, now, MAX_AGE, 0)]
  }

  /** The pool with its deposits and collateral, before and after the borrow. */
  function Funded(now: nat): Storage {
    Storage(Ledger(map[BORROWER := COLLATERAL, LATECOMER := WAD], COLLATERAL + WAD),
            Ledger(map[SUPPLIER := SUPPLY], SUPPLY), EMPTY, SUPPLY, 0, 0, RAY, RAY, now)
  }

  function Indebted(now: nat): Storage {
    Funded(now).(debts := Ledger(map[BORROWER := DEBT], DEBT), available := SUPPLY - DEBT)
  }

  lemma RunStep(m: Market, c: Chain, txs: seq<Tx>, n: nat)
    requires n < |txs|
    ensures Run(m, c, txs[..n + 1]).after == Next(m, Run(m, c, txs[..n]).after, txs[n]).after
  {
    hide Next;
    assert txs[..n + 1][..n] == txs[..n];
  }

  lemma OracleIsSetUp(now: nat)
    ensures Run(MARKET, Genesis(now), DeploymentBlock(now)[..4]).after == Chain(Deployed(now), OracleAt(now))
  {
    hide Run, PoolCall;
    var c, txs := Genesis(now), DeploymentBlock(now);
    assert Run(MARKET, c, txs[..0]).after == c by { NoTransactions(c, txs); }
    RunStep(MARKET, c, txs, 0);
    RunStep(MARKET, c, txs, 1);
    RunStep(MARKET, c, txs, 2);
    RunStep(MARKET, c, txs, 3);
  }

  lemma NoTransactions(c: Chain, txs: seq<Tx>)
    ensures Run(MARKET, c, txs[..0]).after == c
  {
  }

  lemma Deposits(now: nat)
    ensures var c := Chain(Deployed(now), OracleAt(now));
            var supplied := Deployed(now).(deposits := Ledger(map[SUPPLIER := SUPPLY], SUPPLY), available := SUPPLY);
            var backed := supplied.(collateral := Ledger(map[BORROWER := COLLATERAL], COLLATERAL));
            && Next(MARKET, c, Tx(now, SupplyCall(SUPPLIER, USDC, SUPPLY))).after == c.(pool := supplied)
            && Next(MARKET, c.(pool := supplied), Tx(now, SupplyCall(BORROWER, WETH, COLLATERAL))).after
               == c.(pool := backed)
            && Next(MARKET, c.(pool := backed), Tx(now, SupplyCall(LATECOMER, WETH, WAD))).after
               == c.(pool := Funded(now))
  {
    assert Floor(0, RAY, RAY) == 0;
    assert Floor(SUPPLY, RAY, RAY) == SUPPLY;
  }

  lemma FirstBorrow(now: nat)
    ensures Next(MARKET, Chain(Funded(now), OracleAt(now)), Tx(now, BorrowCall(BORROWER, USDC, DEBT))).after
            == Chain(Indebted(now), OracleAt(now))
  {
    hide AccrueInterest;
    var p := Funded(now);
    assert AccrueInterest(p, now) == Success(Step(p, [])) by { SameBlock(p); }
    assert Ceil(DEBT, RAY, RAY) == DEBT && Ceil(0, RAY, RAY) == 0;
    Valuation();
  }

  lemma SameBlock(p: Storage)
    ensures AccrueInterest(p, p.lastUpdate) == Success(Step(p, []))
    ensures ProjectedIndices(p, p.lastUpdate) == Success(Indices(p.borrowIndex, p.liquidityIndex))
  {
  }

  /** The borrower's collateral: worth 5.4 USD, good for 4.05 USD of debt, healthy up to 4.32 USD. */
  lemma Valuation()
    ensures Floor(COLLATERAL, WETH_PRICE, ORACLE_PRICE_SCALE) == 5_400_000_000_000_000_000
    ensures Floor(5_400_000_000_000_000_000, WETH_LTV_BPS, BPS) == 4_050_000_000_000_000_000
    ensures Floor(5_400_000_000_000_000_000, WETH_LIQUIDATION_THRESHOLD_BPS, BPS) == 4_320_000_000_000_000_000
    ensures WAD <= Floor(4_320_000_000_000_000_000, WAD, 4_000_004_000_000_000_000) <= MAX_UINT256
    ensures Floor(4_320_000_000_000_000_000, WAD, 4_400_005_000_000_000_000) < WAD
  {
  }

  lemma AfterDeploymentBlock(now: nat)
    ensures Run(MARKET, Genesis(now), DeploymentBlock(now)).after == Chain(Indebted(now), OracleAt(now))
  {
    hide Run, Next;
    var c, txs := Genesis(now), DeploymentBlock(now);
    OracleIsSetUp(now);
    Deposits(now);
    FirstBorrow(now);
    RunStep(MARKET, c, txs, 4);
    RunStep(MARKET, c, txs, 5);
    RunStep(MARKET, c, txs, 6);
    RunStep(MARKET, c, txs, 7);
    assert txs[..8] == txs;
  }

  // A second debtor ------------------------------------------------------------------------------

  const YEAR_LATER_BORROW_INDEX: nat := 1_100_000_000_000_000_000_000_000_000
  const YEAR_LATER_LIQUIDITY_INDEX: nat := 1_072_000_000_000_000_000_000_000_000

  function YearLater(now: nat): Storage {
    Indebted(now).(borrowIndex := YEAR_LATER_BORROW_INDEX, liquidityIndex := YEAR_LATER_LIQUIDITY_INDEX,
                   lastUpdate := now + SECONDS_PER_YEAR, reserve := 40_001)
  }

  /** At 80% utilization borrowers pay 10% and suppliers get 7.2%. */
  lemma YearlyRates()
    ensures IRM.Utilization(SUPPLY - DEBT, DEBT) == Success(IRM.OPTIMAL_UTILIZATION)
    ensures IRM.BorrowRate(IRM.OPTIMAL_UTILIZATION) == Success(RAY / 10)
    ensures IRM.LiquidityRate(IRM.OPTIMAL_UTILIZATION, RAY / 10, RESERVE_FACTOR_BPS) == Success(RAY / 1_000 * 72)
  {
    assert Floor(DEBT, RAY, SUPPLY) == IRM.OPTIMAL_UTILIZATION;
    assert Floor(IRM.OPTIMAL_UTILIZATION, IRM.SLOPE_1, IRM.OPTIMAL_UTILIZATION) == IRM.SLOPE_1;
    assert Floor(RAY / 10, IRM.OPTIMAL_UTILIZATION, RAY) == RAY / 100 * 8;
    assert Floor(RAY / 100 * 8, BPS - RESERVE_FACTOR_BPS, BPS) == RAY / 1_000 * 72;
  }

  lemma YearlyClaims()
    ensures Ceil(DEBT, RAY, RAY) == DEBT && Ceil(DEBT, YEAR_LATER_BORROW_INDEX, RAY) == 4_400_005
    ensures Floor(SUPPLY, RAY, RAY) == SUPPLY && Floor(SUPPLY, YEAR_LATER_LIQUIDITY_INDEX, RAY) == 5_360_005
    ensures Floor(400_001, BPS - RESERVE_FACTOR_BPS, BPS) == 360_000
  {
  }

  lemma YearlyGrowth()
    ensures Floor(RAY / 10, SECONDS_PER_YEAR, SECONDS_PER_YEAR) == RAY / 10
    ensures Floor(RAY / 1_000 * 72, SECONDS_PER_YEAR, SECONDS_PER_YEAR) == RAY / 1_000 * 72
    ensures Floor(RAY, RAY + RAY / 10, RAY) == YEAR_LATER_BORROW_INDEX
    ensures Floor(RAY, RAY + RAY / 1_000 * 72, RAY) == YEAR_LATER_LIQUIDITY_INDEX
  {
  }

  lemma YearlyAccrual(now: nat)
    ensures ProjectedIndices(Indebted(now), now + SECONDS_PER_YEAR)
            == Success(Indices(YEAR_LATER_BORROW_INDEX, YEAR_LATER_LIQUIDITY_INDEX))
    ensures AccrueInterest(Indebted(now), now + SECONDS_PER_YEAR).Success?
    ensures AccrueInterest(Indebted(now), now + SECONDS_PER_YEAR).value.after == YearLater(now)
  {
    hide Floor, Ceil, IRM.Utilization, IRM.BorrowRate, IRM.LiquidityRate, MaximumLiquidityIndex;
    YearlyRates();
    YearlyClaims();
    YearlyGrowth();
  }

  /** The storage after the latecomer borrows one USDC. */
  function TwoDebtors(now: nat): Storage {
    YearLater(now).(debts := Ledger(map[BORROWER := DEBT, LATECOMER := 909_091], DEBT + 909_091), available := 1,
                    reserve := 40_002)
  }

  lemma LateBorrowArithmetic()
    ensures Ceil(1_000_000, RAY, YEAR_LATER_BORROW_INDEX) == 909_091
    ensures Ceil(0, YEAR_LATER_BORROW_INDEX, RAY) == 0 && Ceil(909_091, YEAR_LATER_BORROW_INDEX, RAY) == 1_000_001
    ensures Ceil(DEBT + 909_091, YEAR_LATER_BORROW_INDEX, RAY) == 5_400_005
    ensures Floor(WAD, WETH_PRICE, ORACLE_PRICE_SCALE) == 3_000 * WAD
    ensures Floor(3_000 * WAD, WETH_LTV_BPS, BPS) == 2_250 * WAD
    ensures Floor(3_000 * WAD, WETH_LIQUIDATION_THRESHOLD_BPS, BPS) == 2_400 * WAD
    ensures WAD <= Floor(2_400 * WAD, WAD, 1_000_001_000_000_000_000) <= MAX_UINT256
  {
  }

  const LATE_BORROW := BorrowCall(LATECOMER, USDC, 1_000_000)

  lemma LateBorrow(now: nat)
    ensures Next(MARKET, Chain(Indebted(now), OracleAt(now)), Tx(now + SECONDS_PER_YEAR, LATE_BORROW)).after
            == Chain(TwoDebtors(now), OracleAt(now))
  {
    hide AccrueInterest, Floor, Ceil;
    YearlyAccrual(now);
    LateBorrowArithmetic();
  }

  /** The identity needs the sole debtor: whenever the pool is deployed, it holds after the first eight ordinary
      calls of this run, and the ninth, the second debtor's borrow, breaks it by one base unit. */
  lemma TwoDebtorsDrift(deployedAt: nat)
    ensures var txs := DeploymentBlock(deployedAt) + [Tx(deployedAt + SECONDS_PER_YEAR, LATE_BORROW)];
            && Gap(Run(MARKET, Genesis(deployedAt), txs[..8]).after.pool) == 0
            && Transact(MARKET, Run(MARKET, Genesis(deployedAt), txs[..8]).after, txs[8]).Success?
            && Gap(Run(MARKET, Genesis(deployedAt), txs).after.pool) == -1
  {
    hide Run, Next, Floor, Ceil;
    var c, txs := Genesis(deployedAt), DeploymentBlock(deployedAt) + [Tx(deployedAt + SECONDS_PER_YEAR, LATE_BORROW)];
    assert txs[..8] == DeploymentBlock(deployedAt) && txs[..9] == txs;
    AfterDeploymentBlock(deployedAt);
    LateBorrow(deployedAt);
    RunStep(MARKET, c, txs, 8);
    YearlyClaims();
    LateBorrowArithmetic();
    Reverted(Chain(Indebted(deployedAt), OracleAt(deployedAt)), txs[8]);
  }

  lemma Reverted(c: Chain, tx: Tx)
    ensures Transact(MARKET, c, tx).Failure? ==> Next(MARKET, c, tx).after == c
  {
    hide Transact;
  }

  // Before the first accrual ---------------------------------------------------------------------

  /** Deployed a year after time zero, and asked in the deployment block: the contracts find the borrower healthy,
      while the engine, knowing only the logs, adds a year of interest that never accrued and would liquidate. */
  lemma HealthDiffersBeforeFirstAccrual(logs: seq<RawLog>)
    requires Carries(logs, Run(MARKET, Genesis(SECONDS_PER_YEAR), DeploymentBlock(SECONDS_PER_YEAR)).events)
    ensures var c := Run(MARKET, Genesis(SECONDS_PER_YEAR), DeploymentBlock(SECONDS_PER_YEAR)).after;
            var prices := PricesAt(MARKET, c.oracle, SECONDS_PER_YEAR);
            var indexed := ApplyAll(MARKET, CreateInitialState(), logs);
            && UsdcDebt(c.pool, SECONDS_PER_YEAR, BORROWER) == Success(DEBT)
            && IsLiquidatable(prices, c.pool.collateral.BalanceOf(BORROWER), DEBT) == Success(false)
            && indexed.Success?
            && var risk := EvaluateIndexed(PositionOf(indexed.value, BORROWER), indexed.value.market, SECONDS_PER_YEAR);
               risk.Success? && risk.value.usdcDebt == 4_400_005 && risk.value.liquidatable
  {
    hide Run, ApplyAll, Carries, Accrues, Floor, Ceil, ProjectedIndices, ProjectedBorrowIndex;
    var now := SECONDS_PER_YEAR;
    AfterDeploymentBlock(now);
    DeploymentBlockNeverAccrues(MARKET, now, DeploymentBlock(now));
    ProjectorRefinesPool(MARKET, now, DeploymentBlock(now), logs);
    var d := ApplyAll(MARKET, CreateInitialState(), logs).value;
    SameBlock(Indebted(now));
    Valuation();
    YearlyClaims();
    EngineAddsAYear(d.market);
    assert PositionOf(d, BORROWER) == PositionState(COLLATERAL, 0, DEBT);
  }

  lemma EngineAddsAYear(market: MarketState)
    requires MirrorsTotals(Indebted(SECONDS_PER_YEAR), market) && market.lastInterestTimestamp == 0
    ensures ProjectedBorrowIndex(market, SECONDS_PER_YEAR) == Success(YEAR_LATER_BORROW_INDEX)
  {
    hide Floor, Ceil, IRM.Utilization, IRM.BorrowRate, IRM.LiquidityRate, BorrowRate;
    YearlyRates();
    YearlyClaims();
    YearlyGrowth();
    BorrowRatesAgree(IRM.OPTIMAL_UTILIZATION);
    assert Floor(DEBT, RAY, SUPPLY) == IRM.OPTIMAL_UTILIZATION by { UtilizationIsFloor(); }
  }

  lemma UtilizationIsFloor()
    ensures Floor(DEBT, RAY, SUPPLY) == IRM.OPTIMAL_UTILIZATION
  {
  }

  // A proposal the manager rejects ---------------------------------------------------------------

  const CRASHED: nat := 2_000_000_000_000

  /** One wei of collateral backs one USDC until its price falls by six orders of magnitude. The first call accrues,
      so that the engine knows the time. */
  function Crash(): seq<Tx> {
    [Tx(1, AccrueCall),
     Tx(1, RegisterAssetCall(WETH, MAX_AGE)),
     Tx(1, RegisterAssetCall(USDC, MAX_AGE)),
     Tx(1, SetPriceCall(WETH, CRASHED * 1_000_000)),
     Tx(1, SetPriceCall(USDC, 1)),
     Tx(1, SupplyCall(SUPPLIER, USDC, 1_000_000)),
     Tx(1, SupplyCall(BORROWER, WETH, 1)),
     Tx(1, BorrowCall(BORROWER, USDC, 1_000_000)),
     Tx(1, SetPriceCall(WETH, CRASHED))]
  }

  function CrashOracle(wethPrice: nat): Oracle {
    map[WETH := AssetPrice(wethPrice, 1, MAX_AGE, 0), USDC := AssetPrice(1, 1, MAX_AGE, 0)]
  }

  function CrashFunded(): Storage {
    Storage(Ledger(map[BORROWER := 1], 1), Ledger(map[SUPPLIER := 1_000_000], 1_000_000), EMPTY, 1_000_000, 0, 0,
            RAY, RAY, 1)
  }

  function CrashIndebted(): Storage {
    CrashFunded().(debts := Ledger(map[BORROWER := 1_000_000], 1_000_000), available := 0)
  }

  lemma CrashSetUp()
    ensures Run(MARKET, Genesis(0), Crash()[..5]).after == Chain(Deployed(1), CrashOracle(CRASHED * 1_000_000))
  {
    hide Run;
    var c, txs := Genesis(0), Crash();
    NoTransactions(c, txs);
    assert Next(MARKET, c, txs[0]).after == Chain(Deployed(1), map[]) by { FirstAccrual(); }
    RunStep(MARKET, c, txs, 0);
    RunStep(MARKET, c, txs, 1);
    RunStep(MARKET, c, txs, 2);
    RunStep(MARKET, c, txs, 3);
    RunStep(MARKET, c, txs, 4);
  }

  lemma FirstAccrual()
    ensures Next(MARKET, Genesis(0), Tx(1, AccrueCall)).after == Chain(Deployed(1), map[])
  {
  }

  lemma CrashDeposits(oracle: Oracle)
    ensures var c := Chain(Deployed(1), oracle);
            var supplied := Deployed(1).(deposits := Ledger(map[SUPPLIER := 1_000_000], 1_000_000),
                                         available := 1_000_000);
            && Next(MARKET, c, Tx(1, SupplyCall(SUPPLIER, USDC, 1_000_000))).after == c.(pool := supplied)
            && Next(MARKET, c.(pool := supplied), Tx(1, SupplyCall(BORROWER, WETH, 1))).after
               == c.(pool := CrashFunded())
  {
    assert Floor(0, RAY, RAY) == 0;
    assert Floor(1_000_000, RAY, RAY) == 1_000_000;
  }

  lemma CrashBorrow()
    ensures var c := Chain(CrashFunded(), CrashOracle(CRASHED * 1_000_000));
            Next(MARKET, c, Tx(1, BorrowCall(BORROWER, USDC, 1_000_000))).after == c.(pool := CrashIndebted())
  {
    hide AccrueInterest;
    SameBlock(CrashFunded());
    assert Ceil(1_000_000, RAY, RAY) == 1_000_000 && Ceil(0, RAY, RAY) == 0;
  }

  lemma AfterCrash()
    ensures Run(MARKET, Genesis(0), Crash()).after == Chain(CrashIndebted(), CrashOracle(CRASHED))
  {
    hide Run, Next;
    var c, txs := Genesis(0), Crash();
    CrashSetUp();
    CrashDeposits(CrashOracle(CRASHED * 1_000_000));
    CrashBorrow();
    RunStep(MARKET, c, txs, 5);
    RunStep(MARKET, c, txs, 6);
    RunStep(MARKET, c, txs, 7);
    RunStep(MARKET, c, txs, 8);
    PriceFalls();
    assert txs[..9] == txs;
  }

  lemma PriceFalls()
    ensures Next(MARKET, Chain(CrashIndebted(), CrashOracle(CRASHED * 1_000_000)), Tx(1, SetPriceCall(WETH, CRASHED)))
              .after == Chain(CrashIndebted(), CrashOracle(CRASHED))
  {
  }

  /** After this run the engine, from the logs alone, sees exactly the position the contracts see, unhealthy, and
      proposes a liquidation; any liquidation of it reverts. */
  lemma RejectedAfterCrash(logs: seq<RawLog>, sender: Address, requestedRepay: nat, minCollateralOut: nat)
    requires requestedRepay > 0
    requires Carries(logs, Run(MARKET, Genesis(0), Crash()).events)
    ensures var c := Run(MARKET, Genesis(0), Crash()).after;
            var indexed := ApplyAll(MARKET, CreateInitialState(), logs);
            && Transact(MARKET, c, Tx(1, LiquidateCall(sender, BORROWER, USDC, WETH, requestedRepay, minCollateralOut)))
               == Failure(LiquidationAmountTooSmall)
            && indexed.Success?
            && var risk := EvaluateIndexed(PositionOf(indexed.value, BORROWER), indexed.value.market, 1);
               && risk.Success?
               && BuildCandidate(risk.value, indexed.value.market, None)
                  == Success(Some(Candidate(1, 10_000, 1, 999_999)))
  {
    hide Run, ApplyAll, Carries, Accrues, Floor, Ceil, ProjectedIndices, BuildCandidate, CalculateLiquidation,
         CollateralValue, DebtValue, MaxBorrow, HealthFactor;
    AfterCrash();
    ProjectorRefinesPool(MARKET, 0, Crash(), logs);
    var d := ApplyAll(MARKET, CreateInitialState(), logs).value;
    SameBlock(CrashIndebted());
    RejectedProposal(d.market, requestedRepay);
    CrashEvaluation(d.market);
    assert PositionOf(d, BORROWER) == PositionState(1, 0, 1_000_000);
    assert PricesAt(MARKET, CrashOracle(CRASHED), 1) == IndexedPrices(d.market);
  }

  lemma CrashEvaluation(market: MarketState)
    requires MirrorsTotals(CrashIndebted(), market) && market.lastInterestTimestamp == 1
    requires MirrorsPrices(MARKET, CrashOracle(CRASHED), market)
    ensures EvaluateIndexed(PositionState(1, 0, 1_000_000), market, 1)
            == Success(PositionRisk(1, 1_000_000, 20_000, 10_000_000_000, 15_000, 1_600_000_000_000, true))
    ensures UsdcDebt(CrashIndebted(), 1, BORROWER) == Success(1_000_000)
  {
    assert Ceil(1_000_000, RAY, RAY) == 1_000_000;
    SameBlock(CrashIndebted());
  }

  // A proposal the pool rejects ------------------------------------------------------------------

  const SLUMP: nat := 60_000

  /** A year of interest on the first borrow, and a collateral that is then worth one base unit of USDC and a bit. */
  function Slump(deployedAt: nat): seq<Tx> {
    DeploymentBlock(deployedAt)
    + [Tx(deployedAt + SECONDS_PER_YEAR, AccrueCall), Tx(deployedAt + SECONDS_PER_YEAR, SetPriceCall(WETH, SLUMP))]
  }

  function SlumpOracle(deployedAt: nat): Oracle {
    OracleAt(deployedAt)[WETH := AssetPrice(SLUMP, deployedAt + SECONDS_PER_YEAR, MAX_AGE, 0)]
  }

  lemma SlumpSteps(now: nat)
    ensures Next(MARKET, Chain(Indebted(now), OracleAt(now)), Tx(now + SECONDS_PER_YEAR, AccrueCall)).after
            == Chain(YearLater(now), OracleAt(now))
    ensures Next(MARKET, Chain(YearLater(now), OracleAt(now)), Tx(now + SECONDS_PER_YEAR, SetPriceCall(WETH, SLUMP)))
              .after == Chain(YearLater(now), SlumpOracle(now))
  {
    hide AccrueInterest;
    YearlyAccrual(now);
  }

  lemma AfterSlump(now: nat)
    ensures Run(MARKET, Genesis(now), Slump(now)).after == Chain(YearLater(now), SlumpOracle(now))
  {
    hide Run, Next;
    var c, txs := Genesis(now), Slump(now);
    assert txs[..8] == DeploymentBlock(now) && txs[..10] == txs;
    AfterDeploymentBlock(now);
    SlumpSteps(now);
    RunStep(MARKET, c, txs, 8);
    RunStep(MARKET, c, txs, 9);
  }

  lemma SlumpValues(prices: Prices)
    requires prices == Prices(Success(SLUMP), Success(USDC_PRICE))
    ensures CollateralValue(prices, COLLATERAL) == Success(1_080_000_000_000)
    ensures DebtValue(prices, 4_400_005) == Success(4_400_005_000_000_000_000)
    ensures MaxBorrow(prices, COLLATERAL) == Success(810_000_000_000)
    ensures HealthFactor(prices, COLLATERAL, 4_400_005) == Success(196_363_413_223)
    ensures SeizedForRepay(prices, 1) == Success(1_750_000_000_000_000)
  {
  }

  /** The collateral covers a repayment of one base unit, whatever is requested. */
  lemma SlumpSizing(market: MarketState, requestedRepay: nat)
    requires market.wethPrice == SLUMP && market.usdcPrice == USDC_PRICE && requestedRepay > 0
    ensures CalculateLiquidation(IndexedPrices(market), 4_400_005, COLLATERAL, requestedRepay)
            == Success(Sizing(1, COLLATERAL))
    ensures BuildCandidate(PositionRisk(COLLATERAL, 4_400_005, 1_080_000_000_000, 4_400_005_000_000_000_000,
                                        810_000_000_000, 196_363_413_223, true), market, Some(requestedRepay))
            == Success(Some(Candidate(1, 80_000_000_000, COLLATERAL, 4_400_004)))
  {
  }

  /** At an index of 1.1 one base unit is less than a scaled unit. */
  lemma SlumpSeizure(now: nat)
    ensures SeizeCollateral(YearLater(now), BORROWER, 1, COLLATERAL) == Failure(ScaledAmountTooSmall)
  {
    YearlyClaims();
    assert Floor(1, RAY, YEAR_LATER_BORROW_INDEX) == 0;
  }

  /** Whenever the pool is deployed, after this run the manager sizes the proposed liquidation with a seizure that
      does not round to zero, and the pool reverts it. */
  lemma RejectedAfterSlump(deployedAt: nat, logs: seq<RawLog>, sender: Address, requestedRepay: nat,
                           minCollateralOut: nat)
    requires 0 < deployedAt && deployedAt + SECONDS_PER_YEAR <= MAX_UINT64
    requires sender != 0 && requestedRepay > 0 && minCollateralOut <= COLLATERAL
    requires Carries(logs, Run(MARKET, Genesis(deployedAt), Slump(deployedAt)).events)
    ensures var c := Run(MARKET, Genesis(deployedAt), Slump(deployedAt)).after;
            var now := deployedAt + SECONDS_PER_YEAR;
            var indexed := ApplyAll(MARKET, CreateInitialState(), logs);
            var candidate := Candidate(1, 80_000_000_000, COLLATERAL, 4_400_004);
            && indexed.Success? && Proposes(indexed.value, now, BORROWER, Some(requestedRepay), candidate)
            && SeizedForRepay(PricesAt(MARKET, c.oracle, now), candidate.maxRepay) == Success(1_750_000_000_000_000)
            && Transact(MARKET, c, Tx(now, LiquidateCall(sender, BORROWER, USDC, WETH, requestedRepay,
                                                         minCollateralOut))) == Failure(ScaledAmountTooSmall)
  {
    hide Run, ApplyAll, Carries, Accrues, Floor, Ceil, ProjectedIndices, BuildCandidate, CalculateLiquidation,
         CollateralValue, DebtValue, MaxBorrow, HealthFactor, SeizedForRepay, SeizeCollateral, AccrueInterest,
         EvaluateIndexed;
    AfterSlump(deployedAt);
    ProjectorRefinesPool(MARKET, deployedAt, Slump(deployedAt), logs);
    var d := ApplyAll(MARKET, CreateInitialState(), logs).value;
    SameBlock(YearLater(deployedAt));
    SlumpValues(IndexedPrices(d.market));
    SlumpSizing(d.market, requestedRepay);
    SlumpSeizure(deployedAt);
    SlumpEvaluation(deployedAt, d.market);
    assert PositionOf(d, BORROWER) == PositionState(COLLATERAL, 0, DEBT);
    assert PricesAt(MARKET, SlumpOracle(deployedAt), deployedAt + SECONDS_PER_YEAR) == IndexedPrices(d.market);
  }

  lemma SlumpEvaluation(deployedAt: nat, market: MarketState)
    requires 0 < deployedAt && deployedAt + SECONDS_PER_YEAR <= MAX_UINT64
    requires MirrorsTotals(YearLater(deployedAt), market)
    requires market.lastInterestTimestamp == deployedAt + SECONDS_PER_YEAR
    requires MirrorsPrices(MARKET, SlumpOracle(deployedAt), market)
    ensures EvaluateIndexed(PositionState(COLLATERAL, 0, DEBT), market, deployedAt + SECONDS_PER_YEAR)
            == Success(PositionRisk(COLLATERAL, 4_400_005, 1_080_000_000_000, 4_400_005_000_000_000_000,
                                    810_000_000_000, 196_363_413_223, true))
    ensures UsdcDebt(YearLater(deployedAt), deployedAt + SECONDS_PER_YEAR, BORROWER) == Success(4_400_005)
  {
    hide CollateralValue, DebtValue, Ceil;
    YearlyClaims();
    SameBlock(YearLater(deployedAt));
    SlumpValues(IndexedPrices(market));
  }
}
