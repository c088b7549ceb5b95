/** The event-sourced mirror of the pool (StateProjector.cpp), as functions on the derived state. */
module StateProjector {
  import opened Results
  import opened FixedPoint
  import opened Ledgers
  import opened RiskManager
  import opened Pool

  type Hash = nat

  datatype PositionState = PositionState(wethCollateral: nat, scaledUsdcSupply: nat, scaledUsdcDebt: nat)

  const NO_POSITION: PositionState := PositionState(0, 0, 0)

  datatype MarketState = MarketState(
    totalWethCollateral: nat,
    totalScaledUsdcSupply: nat,
    totalScaledUsdcDebt: nat,
    availableUsdcLiquidity: nat,
    protocolReserve: nat,
    badDebt: nat,
    borrowIndex: nat,
    liquidityIndex: nat,
    lastInterestTimestamp: nat,
    wethPrice: nat,
    wethPriceUpdatedAt: nat,
    wethMaxPriceAge: nat,
    usdcPrice: nat,
    usdcPriceUpdatedAt: nat,
    usdcMaxPriceAge: nat)

  /** The events the decoder knows: of what the contracts emit, all but the price publication. */
  type IndexedEvent = e: Event | !e.PricePublished? witness AssetRegistered(0, 0)

  /** A stored log; `event` is its decoding, or nothing when the decoder does not know it. */
  datatype RawLog = RawLog(
    blockNumber: nat,
    blockHash: Hash,
    transactionHash: Hash,
    transactionIndex: nat,
    logIndex: nat,
    event: Option<IndexedEvent>,
    canonical: bool)

  datatype LiquidationState = LiquidationState(
    blockNumber: nat,
    blockHash: Hash,
    transactionHash: Hash,
    logIndex: nat,
    liquidator: Address,
    borrower: Address,
    debtAsset: Address,
    collateralAsset: Address,
    repaidAmount: nat,
    collateralSeized: nat)

  datatype DerivedState = DerivedState(
    positions: map<Address, PositionState>,
    market: MarketState,
    liquidations: seq<LiquidationState>)

  function CreateInitialState(): DerivedState {
    DerivedState(map[], MarketState(0, 0, 0, 0, 0, 0, RAY, RAY, 0, 0, 0, 0, 0, 0, 0), [])
  }

  /** The stored position, or an empty one for a user without a row. */
  function PositionOf(d: DerivedState, user: Address): PositionState {
    if user in d.positions then d.positions[user] else NO_POSITION
  }

  function SetPosition(d: DerivedState, user: Address, position: PositionState): DerivedState {
    d.(positions := d.positions[user := position])
  }

  function RemoveEmptyPosition(d: DerivedState, user: Address): DerivedState {
    if user in d.positions && d.positions[user] == NO_POSITION
    then d.(positions := d.positions - {user})
    else d
  }

  function ApplySupplied(m: Market, d: DerivedState, user: Address, asset: Address, amount: nat): Result<DerivedState> {
    var position := PositionOf(d, user);
    var market := d.market;
    if asset == m.weth then
      var collateral :- Add(position.wethCollateral, amount);
      var total :- Add(market.totalWethCollateral, amount);
      Success(SetPosition(d, user, position.(wethCollateral := collateral)).(
              market := market.(totalWethCollateral := total)))
    else if asset == m.usdc then
      var supplyBefore :- SupplyAtIndex(market.totalScaledUsdcSupply, market.liquidityIndex);
      var scaledMint :- MulDivDown(amount, RAY, market.liquidityIndex);
      var supply :- Add(position.scaledUsdcSupply, scaledMint);
      var total :- Add(market.totalScaledUsdcSupply, scaledMint);
      var supplyAfter :- SupplyAtIndex(total, market.liquidityIndex);
      var claimIncrease :- Sub(supplyAfter, supplyBefore);
      var dust :- Sub(amount, claimIncrease);
      var reserve :- Add(market.protocolReserve, dust);
      var available :- Add(market.availableUsdcLiquidity, amount);
      Success(SetPosition(d, user, position.(scaledUsdcSupply := supply)).(
              market := market.(totalScaledUsdcSupply := total, protocolReserve := reserve,
                                availableUsdcLiquidity := available)))
    else
      Success(SetPosition(d, user, position))
  }

  /** The market's side of a withdrawal: the claim burnt beyond the amount goes to the reserve. */
  function BurnClaim(market: MarketState, supplyBefore: nat, scaledBurn: nat, amount: nat): Result<MarketState> {
    var total :- Sub(market.totalScaledUsdcSupply, scaledBurn);
    var supplyAfter :- SupplyAtIndex(total, market.liquidityIndex);
    var claimDecrease :- Sub(supplyBefore, supplyAfter);
    var dust :- Sub(claimDecrease, amount);
    var reserve :- Add(market.protocolReserve, dust);
    var available :- Sub(market.availableUsdcLiquidity, amount);
    Success(market.(totalScaledUsdcSupply := total, protocolReserve := reserve, availableUsdcLiquidity := available))
  }

  function ApplyWithdrawn(m: Market, d: DerivedState, user: Address, asset: Address, amount: nat)
    : Result<DerivedState>
  {
    var position := PositionOf(d, user);
    var market := d.market;
    if asset == m.weth then
      var collateral :- Sub(position.wethCollateral, amount);
      var total :- Sub(market.totalWethCollateral, amount);
      Success(RemoveEmptyPosition(
                SetPosition(d, user, position.(wethCollateral := collateral)).(
                market := market.(totalWethCollateral := total)), user))
    else if asset == m.usdc then
      var supplied :- SupplyAtIndex(position.scaledUsdcSupply, market.liquidityIndex);
      var scaledBurn :- if amount == supplied then Success(position.scaledUsdcSupply)
                        else MulDivUp(amount, RAY, market.liquidityIndex);
      var supplyBefore :- SupplyAtIndex(market.totalScaledUsdcSupply, market.liquidityIndex);
      var supply :- Sub(position.scaledUsdcSupply, scaledBurn);
      var burnt :- BurnClaim(market, supplyBefore, scaledBurn, amount);
      Success(RemoveEmptyPosition(
                SetPosition(d, user, position.(scaledUsdcSupply := supply)).(market := burnt), user))
    else
      Success(RemoveEmptyPosition(SetPosition(d, user, position), user))
  }

  function ApplyBorrowed(m: Market, d: DerivedState, user: Address, asset: Address, amount: nat): Result<DerivedState> {
    if asset != m.usdc then Success(d) else
    var position := PositionOf(d, user);
    var market := d.market;
    var debtBefore :- DebtAtIndex(position.scaledUsdcDebt, market.borrowIndex);
    var scaledMint :- MulDivUp(amount, RAY, market.borrowIndex);
    var debt :- Add(position.scaledUsdcDebt, scaledMint);
    var total :- Add(market.totalScaledUsdcDebt, scaledMint);
    var debtAfter :- DebtAtIndex(debt, market.borrowIndex);
    var debtIncrease :- Sub(debtAfter, debtBefore);
    var dust :- Sub(debtIncrease, amount);
    var reserve :- Add(market.protocolReserve, dust);
    var available :- Sub(market.availableUsdcLiquidity, amount);
    Success(SetPosition(d, user, position.(scaledUsdcDebt := debt)).(
            market := market.(totalScaledUsdcDebt := total, protocolReserve := reserve,
                              availableUsdcLiquidity := available)))
  }

  function ApplyRepaid(m: Market, d: DerivedState, user: Address, asset: Address, repaidAmount: nat,
                       remainingDebt: nat): Result<DerivedState> {
    if asset != m.usdc then Success(d) else
    var position := PositionOf(d, user);
    var market := d.market;
    var currentDebt :- DebtAtIndex(position.scaledUsdcDebt, market.borrowIndex);
    var scaledBurn :- if remainingDebt == 0 then Success(position.scaledUsdcDebt)
                      else MulDivDown(repaidAmount, RAY, market.borrowIndex);
    var debt :- Sub(position.scaledUsdcDebt, scaledBurn);
    var total :- Sub(market.totalScaledUsdcDebt, scaledBurn);
    var projectedRemaining :- DebtAtIndex(debt, market.borrowIndex);
    if projectedRemaining != remainingDebt then Failure(RepaidEventDoesNotMatch) else
    var debtReduction :- Sub(currentDebt, remainingDebt);
    var dust :- Sub(repaidAmount, debtReduction);
    var reserve :- Add(market.protocolReserve, dust);
    var available :- Add(market.availableUsdcLiquidity, repaidAmount);
    Success(RemoveEmptyPosition(
              SetPosition(d, user, position.(scaledUsdcDebt := debt)).(
              market := market.(totalScaledUsdcDebt := total, protocolReserve := reserve,
                                availableUsdcLiquidity := available)), user))
  }

  function ApplyInterestAccrued(d: DerivedState, timestamp: nat, borrowIndex: nat, liquidityIndex: nat,
                                reserveAccrued: nat): Result<DerivedState> {
    var reserve :- Add(d.market.protocolReserve, reserveAccrued);
    Success(d.(market := d.market.(lastInterestTimestamp := timestamp, borrowIndex := borrowIndex,
                                   liquidityIndex := liquidityIndex, protocolReserve := reserve)))
  }

  function ApplyLiquidated(d: DerivedState, log: RawLog, liquidator: Address, borrower: Address, debtAsset: Address,
                           collateralAsset: Address, repaidAmount: nat, seized: nat): Result<DerivedState> {
    var position := PositionOf(d, borrower);
    var market := d.market;
    var currentDebt :- DebtAtIndex(position.scaledUsdcDebt, market.borrowIndex);
    var scaledBurn :- if repaidAmount >= currentDebt then Success(position.scaledUsdcDebt)
                      else MulDivDown(repaidAmount, RAY, market.borrowIndex);
    var debt :- Sub(position.scaledUsdcDebt, scaledBurn);
    var totalDebt :- Sub(market.totalScaledUsdcDebt, scaledBurn);
    var remainingDebt :- DebtAtIndex(debt, market.borrowIndex);
    var debtReduction :- Sub(currentDebt, remainingDebt);
    var dust :- Sub(repaidAmount, debtReduction);
    var reserve :- Add(market.protocolReserve, dust);
    var available :- Add(market.availableUsdcLiquidity, repaidAmount);
    var collateral :- Sub(position.wethCollateral, seized);
    var totalCollateral :- Sub(market.totalWethCollateral, seized);
    Success(RemoveEmptyPosition(
              SetPosition(d, borrower, position.(scaledUsdcDebt := debt, wethCollateral := collateral)).(
              market := market.(totalScaledUsdcDebt := totalDebt, protocolReserve := reserve,
                                availableUsdcLiquidity := available, totalWethCollateral := totalCollateral),
              liquidations := d.liquidations + [LiquidationState(
                log.blockNumber, log.blockHash, log.transactionHash, log.logIndex, liquidator, borrower,
                debtAsset, collateralAsset, repaidAmount, seized)]), borrower))
  }

  function ApplyBadDebtRecognized(d: DerivedState, borrower: Address, amount: nat): Result<DerivedState> {
    var position := PositionOf(d, borrower);
    var total :- Sub(d.market.totalScaledUsdcDebt, position.scaledUsdcDebt);
    var badDebt :- Add(d.market.badDebt, amount);
    Success(RemoveEmptyPosition(
              SetPosition(d, borrower, position.(scaledUsdcDebt := 0)).(
              market := d.market.(totalScaledUsdcDebt := total, badDebt := badDebt)), borrower))
  }

  function ApplyPriceUpdated(m: Market, d: DerivedState, asset: Address, price: nat, updatedAt: nat): DerivedState {
    if asset == m.weth then d.(market := d.market.(wethPrice := price, wethPriceUpdatedAt := updatedAt))
    else if asset == m.usdc then d.(market := d.market.(usdcPrice := price, usdcPriceUpdatedAt := updatedAt))
    else d
  }

  function ApplyAssetRegistered(m: Market, d: DerivedState, asset: Address, maxPriceAge: nat): DerivedState {
    if asset == m.weth then d.(market := d.market.(wethMaxPriceAge := maxPriceAge))
    else if asset == m.usdc then d.(market := d.market.(usdcMaxPriceAge := maxPriceAge))
    else d
  }

  function ApplyEvent(m: Market, d: DerivedState, log: RawLog, event: IndexedEvent): Result<DerivedState> {
    match event
    case Supplied(user, asset, amount) => ApplySupplied(m, d, user, asset, amount)
    case Withdrawn(user, asset, amount) => ApplyWithdrawn(m, d, user, asset, amount)
    case Borrowed(user, asset, amount) => ApplyBorrowed(m, d, user, asset, amount)
    case Repaid(user, asset, amount, remaining) => ApplyRepaid(m, d, user, asset, amount, remaining)
    case InterestAccrued(timestamp, borrowIndex, liquidityIndex, reserveAccrued) =>
      ApplyInterestAccrued(d, timestamp, borrowIndex, liquidityIndex, reserveAccrued)
    case Liquidated(liquidator, borrower, debtAsset, collateralAsset, repaid, seized) =>
      ApplyLiquidated(d, log, liquidator, borrower, debtAsset, collateralAsset, repaid, seized)
    case BadDebtRecognized(borrower, amount) => ApplyBadDebtRecognized(d, borrower, amount)
    case PriceUpdated(asset, price, updatedAt) => Success(ApplyPriceUpdated(m, d, asset, price, updatedAt))
    case AssetRegistered(asset, maxPriceAge) => Success(ApplyAssetRegistered(m, d, asset, maxPriceAge))
  }

  function Apply(m: Market, d: DerivedState, log: RawLog): Result<DerivedState> {
    if log.event.Some? then ApplyEvent(m, d, log, log.event.value) else Success(d)
  }

  /** Applies logs in the order given. */
  function ApplyAll(m: Market, d: DerivedState, logs: seq<RawLog>): Result<DerivedState> {
    if logs == [] then Success(d) else
    var before :- ApplyAll(m, d, logs[..|logs| - 1]);
    Apply(m, before, logs[|logs| - 1])
  }

  lemma {:induction false} ApplyAllConcat(m: Market, d: DerivedState, xs: seq<RawLog>, ys: seq<RawLog>)
    ensures ApplyAll(m, d, xs + ys) ==
            match ApplyAll(m, d, xs)
            case Success(mid) => ApplyAll(m, mid, ys)
            case Failure(e) => Failure(e)
    decreases |ys|
  {
    if ys == [] {
      assert xs + ys == xs;
    } else {
      var init := ys[..|ys| - 1];
      assert (xs + ys)[..|xs + ys| - 1] == xs + init;
      ApplyAllConcat(m, d, xs, init);
    }
  }

  /** A repayment whose reported remainder is not the re-derived debt is refused. */
  lemma RepaidChecksRemainder(m: Market, d: DerivedState, user: Address, amount: nat, remaining: nat)
    ensures ApplyRepaid(m, d, user, m.usdc, amount, remaining).Success? ==>
              var after := ApplyRepaid(m, d, user, m.usdc, amount, remaining).value;
              Ceil(PositionOf(after, user).scaledUsdcDebt, d.market.borrowIndex, RAY) == remaining
  {
    hide Floor, MulDivDown, Add;
    ZeroProduct(d.market.borrowIndex, RAY);
  }

  // The history of liquidations ------------------------------------------------------------------

  /** The rows that a stream of logs leaves: one for every log that decodes to a liquidation, in order, with where the
      log stands and what it says. */
  ghost function HistoryOf(logs: seq<RawLog>): seq<LiquidationState> {
    if logs == [] then [] else HistoryOf(logs[..|logs| - 1]) + RowsOf(logs[|logs| - 1])
  }

  ghost function RowsOf(log: RawLog): seq<LiquidationState> {
    match log.event
    case Some(Liquidated(liquidator, borrower, debtAsset, collateralAsset, repaidAmount, collateralSeized)) =>
      [LiquidationState(log.blockNumber, log.blockHash, log.transactionHash, log.logIndex, liquidator, borrower,
                        debtAsset, collateralAsset, repaidAmount, collateralSeized)]
    case _ => []
  }

  lemma ApplyRecords(m: Market, d: DerivedState, log: RawLog)
    ensures Apply(m, d, log).Success? ==> Apply(m, d, log).value.liquidations == d.liquidations + RowsOf(log)
  {
    hide MulDivDown, MulDivUp, Add, Sub, BurnClaim;
  }

  /** Whatever the logs, the derived history is theirs. */
  lemma {:induction false} ApplyAllRecords(m: Market, d: DerivedState, logs: seq<RawLog>)
    ensures ApplyAll(m, d, logs).Success? ==>
              ApplyAll(m, d, logs).value.liquidations == d.liquidations + HistoryOf(logs)
  {
    if logs != [] && ApplyAll(m, d, logs).Success? {
      hide Apply, RowsOf;
      var init := logs[..|logs| - 1];
      ApplyAllRecords(m, d, init);
      ApplyRecords(m, ApplyAll(m, d, init).value, logs[|logs| - 1]);
    }
  }
}
