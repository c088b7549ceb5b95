/** The lending pool's transitions as functions on its storage (LendingPool.sol). */
module Pool {
  import opened Results
  import opened FixedPoint
  import opened Ledgers
  import opened RiskManager
  import InterestRateModel

  const MINIMUM_USDC_BORROW: nat := 1_000_000
  const RESERVE_FACTOR_BPS: nat := 1_000
  const SECONDS_PER_YEAR: nat := 31_536_000

  datatype Event =
    | Supplied(user: Address, asset: Address, amount: nat)
    | Withdrawn(user: Address, asset: Address, amount: nat)
    | Borrowed(user: Address, asset: Address, amount: nat)
    | Repaid(user: Address, asset: Address, amount: nat, remainingDebt: nat)
    | InterestAccrued(timestamp: nat, borrowIndex: nat, liquidityIndex: nat, reserveAccrued: nat)
    | Liquidated(liquidator: Address, borrower: Address, debtAsset: Address, collateralAsset: Address,
                 repaidAmount: nat, collateralSeized: nat)
    | BadDebtRecognized(borrower: Address, amount: nat)
    | AssetRegistered(asset: Address, maxPriceAge: nat)
    | PriceUpdated(asset: Address, price: nat, updatedAt: nat)
    | PricePublished(asset: Address, price: nat, updatedAt: nat, roundId: nat)

  /** The pool's storage, with the storage of the three ledgers it owns. */
  datatype Storage = Storage(
    collateral: Ledger,
    deposits: Ledger,
    debts: Ledger,
    available: nat,
    badDebt: nat,
    reserve: nat,
    liquidityIndex: nat,
    borrowIndex: nat,
    lastUpdate: nat)

  /** A successful call: the new storage and the events it emitted. */
  datatype Step = Step(after: Storage, events: seq<Event>)

  function Deployed(now: nat): Storage {
    Storage(EMPTY, EMPTY, EMPTY, 0, 0, 0, RAY, RAY, now)
  }

  function DebtAtIndex(scaledAmount: nat, index: nat): Result<nat> {
    MulDivUp(scaledAmount, index, RAY)
  }

  function SupplyAtIndex(scaledAmount: nat, index: nat): Result<nat> {
    MulDivDown(scaledAmount, index, RAY)
  }

  // Interest -------------------------------------------------------------------------------

  datatype Indices = Indices(borrow: nat, liquidity: nat)

  function MaximumLiquidityIndex(scaledSupply: nat, maximumSupply: nat): Result<nat> {
    var numeratorUnits :- Add(maximumSupply, 1);
    var maximumIndex :- MulDivDown(numeratorUnits, RAY, scaledSupply);
    if numeratorUnits * RAY % scaledSupply == 0 then Sub(maximumIndex, 1) else Success(maximumIndex)
  }

  function CappedLiquidityIndex(p: Storage, projectedBorrow: nat, projectedLiquidity: nat): Result<nat> {
    if p.deposits.total == 0 then Success(projectedLiquidity) else
    var debtBefore :- DebtAtIndex(p.debts.total, p.borrowIndex);
    var debtAfter :- DebtAtIndex(p.debts.total, projectedBorrow);
    var debtInterest :- Sub(debtAfter, debtBefore);
    var distributableInterest :- MulDivDown(debtInterest, BPS - RESERVE_FACTOR_BPS, BPS);
    var supplyBefore :- SupplyAtIndex(p.deposits.total, p.liquidityIndex);
    var supplyAfter :- SupplyAtIndex(p.deposits.total, projectedLiquidity);
    var supplierInterest :- Sub(supplyAfter, supplyBefore);
    if supplierInterest <= distributableInterest then Success(projectedLiquidity) else
    var maximumSupply :- Add(supplyBefore, distributableInterest);
    MaximumLiquidityIndex(p.deposits.total, maximumSupply)
  }

  function ProjectedIndices(p: Storage, now: nat): Result<Indices> {
    var elapsedSeconds :- Sub(now, p.lastUpdate);
    if elapsedSeconds == 0 || p.debts.total == 0 then Success(Indices(p.borrowIndex, p.liquidityIndex)) else
    var totalDebt :- DebtAtIndex(p.debts.total, p.borrowIndex);
    var utilizationRay :- InterestRateModel.Utilization(p.available, totalDebt);
    var borrowRateRay :- InterestRateModel.BorrowRate(utilizationRay);
    var liquidityRateRay :- InterestRateModel.LiquidityRate(utilizationRay, borrowRateRay, RESERVE_FACTOR_BPS);
    var borrowGrowth :- MulDivDown(borrowRateRay, elapsedSeconds, SECONDS_PER_YEAR);
    var borrowFactor :- Add(RAY, borrowGrowth);
    var liquidityGrowth :- MulDivDown(liquidityRateRay, elapsedSeconds, SECONDS_PER_YEAR);
    var liquidityFactor :- Add(RAY, liquidityGrowth);
    var projectedBorrow :- MulDivDown(p.borrowIndex, borrowFactor, RAY);
    var projectedLiquidity :- MulDivDown(p.liquidityIndex, liquidityFactor, RAY);
    var capped :- CappedLiquidityIndex(p, projectedBorrow, projectedLiquidity);
    Success(Indices(projectedBorrow, capped))
  }

  /** The amounts one accrual moves: borrowers' interest, suppliers' share, and the rest to the reserve. */
  datatype Accrual = Accrual(next: Indices, debtInterest: nat, supplierInterest: nat, reserveAccrued: nat)

  function InterestSplit(p: Storage, now: nat): Result<Accrual> {
    var next :- ProjectedIndices(p, now);
    var debtBefore :- DebtAtIndex(p.debts.total, p.borrowIndex);
    var debtAfter :- DebtAtIndex(p.debts.total, next.borrow);
    var supplyBefore :- SupplyAtIndex(p.deposits.total, p.liquidityIndex);
    var supplyAfter :- SupplyAtIndex(p.deposits.total, next.liquidity);
    var debtInterest :- Sub(debtAfter, debtBefore);
    var supplierInterest :- Sub(supplyAfter, supplyBefore);
    var reserveAccrued :- Sub(debtInterest, supplierInterest);
    Success(Accrual(next, debtInterest, supplierInterest, reserveAccrued))
  }

  function AccrueInterest(p: Storage, now: nat): Result<Step> {
    var elapsedSeconds :- Sub(now, p.lastUpdate);
    if elapsedSeconds == 0 then Success(Step(p, [])) else
    var accrual :- InterestSplit(p, now);
    var newReserve :- Add(p.reserve, accrual.reserveAccrued);
    Success(Step(
              p.(borrowIndex := accrual.next.borrow, liquidityIndex := accrual.next.liquidity,
              lastUpdate := now, reserve := newReserve),
              [InterestAccrued(now, accrual.next.borrow, accrual.next.liquidity, accrual.reserveAccrued)]))
  }

  // Entry points, each on storage already accrued to the block's timestamp --------------------

  function SupplyUsdc(p: Storage, sender: Address, amount: nat): Result<Storage> {
    var supplyBefore :- SupplyAtIndex(p.deposits.total, p.liquidityIndex);
    var scaledMint :- MulDivDown(amount, RAY, p.liquidityIndex);
    if scaledMint == 0 then Failure(ScaledAmountTooSmall) else
    var deposits :- p.deposits.Mint(sender, scaledMint);
    var supplyAfter :- SupplyAtIndex(deposits.total, p.liquidityIndex);
    var claimIncrease :- Sub(supplyAfter, supplyBefore);
    var reserve :- if amount > claimIncrease then Add(p.reserve, amount - claimIncrease) else Success(p.reserve);
    var available :- Add(p.available, amount);
    Success(p.(deposits := deposits, reserve := reserve, available := available))
  }

  function SupplyWeth(p: Storage, sender: Address, amount: nat): Result<Storage> {
    var collateral :- p.collateral.Mint(sender, amount);
    Success(p.(collateral := collateral))
  }

  function WithdrawUsdc(p: Storage, sender: Address, amount: nat): Result<Storage> {
    var scaledBalance := p.deposits.BalanceOf(sender);
    var supplied :- SupplyAtIndex(scaledBalance, p.liquidityIndex);
    if amount > supplied then Failure(InsufficientSupply(supplied, amount)) else
    if amount > p.available then Failure(InsufficientLiquidity(p.available, amount)) else
    var scaledBurn :- if amount == supplied then Success(scaledBalance) else MulDivUp(amount, RAY, p.liquidityIndex);
    if scaledBurn == 0 || scaledBurn > scaledBalance then Failure(ScaledAmountTooSmall) else
    var supplyBefore :- SupplyAtIndex(p.deposits.total, p.liquidityIndex);
    var deposits :- p.deposits.Burn(sender, scaledBurn);
    var supplyAfter :- SupplyAtIndex(deposits.total, p.liquidityIndex);
    var claimDecrease :- Sub(supplyBefore, supplyAfter);
    var reserve :- if claimDecrease > amount then Add(p.reserve, claimDecrease - amount) else Success(p.reserve);
    Success(p.(deposits := deposits, reserve := reserve, available := p.available - amount))
  }

  /** A borrower's performing debt at the stored index. */
  function DebtOf(p: Storage, user: Address): Result<nat> {
    DebtAtIndex(p.debts.BalanceOf(user), p.borrowIndex)
  }

  function WithdrawWeth(p: Storage, prices: Prices, sender: Address, amount: nat): Result<Storage> {
    var balance := p.collateral.BalanceOf(sender);
    if amount > balance then Failure(InsufficientSupply(balance, amount)) else
    var remaining := balance - amount;
    var _ :- CollateralValue(prices, remaining);
    var debt :- DebtOf(p, sender);
    var health :- HealthFactor(prices, remaining, debt);
    if debt != 0 && health < WAD then Failure(UnhealthyPosition(health)) else
    var collateral :- p.collateral.Burn(sender, amount);
    Success(p.(collateral := collateral))
  }

  function BorrowUsdc(p: Storage, prices: Prices, sender: Address, amount: nat): Result<Storage> {
    if amount > p.available then Failure(InsufficientLiquidity(p.available, amount)) else
    var scaledBalance := p.debts.BalanceOf(sender);
    var scaledMint :- MulDivUp(amount, RAY, p.borrowIndex);
    if scaledMint == 0 then Failure(ScaledAmountTooSmall) else
    var currentDebt :- DebtAtIndex(scaledBalance, p.borrowIndex);
    var newScaled :- Add(scaledBalance, scaledMint);
    var newDebt :- DebtAtIndex(newScaled, p.borrowIndex);
    var maxBorrowValueWad :- MaxBorrow(prices, p.collateral.BalanceOf(sender));
    var newDebtValueWad :- DebtValue(prices, newDebt);
    if newDebtValueWad > maxBorrowValueWad then
      Failure(BorrowCapacityExceeded(newDebtValueWad, maxBorrowValueWad)) else
    var health :- HealthFactor(prices, p.collateral.BalanceOf(sender), newDebt);
    if health < WAD then Failure(UnhealthyPosition(health)) else
    var debtIncrease :- Sub(newDebt, currentDebt);
    var reserve :- if debtIncrease > amount then Add(p.reserve, debtIncrease - amount) else Success(p.reserve);
    var debts :- p.debts.Mint(sender, scaledMint);
    Success(p.(debts := debts, reserve := reserve, available := p.available - amount))
  }

  datatype DebtBurn = DebtBurn(scaledBurn: nat, remainingDebt: nat)

  function ScaledDebtBurn(p: Storage, scaledBalance: nat, repayment: nat): Result<DebtBurn> {
    var currentDebt :- DebtAtIndex(scaledBalance, p.borrowIndex);
    if repayment >= currentDebt then Success(DebtBurn(scaledBalance, 0)) else
    var scaledBurn :- MulDivDown(repayment, RAY, p.borrowIndex);
    if scaledBurn == 0 then Failure(ScaledAmountTooSmall) else
    var remainingScaled :- Sub(scaledBalance, scaledBurn);
    var remainingDebt :- DebtAtIndex(remainingScaled, p.borrowIndex);
    Success(DebtBurn(scaledBurn, remainingDebt))
  }

  /** Takes `repayment` of `user`'s debt out of the books: repay and liquidation share this part. */
  function ReduceDebt(p: Storage, user: Address, currentDebt: nat, repayment: nat, burn: DebtBurn): Result<Storage> {
    var debtReduction :- Sub(currentDebt, burn.remainingDebt);
    var reserve :- if repayment > debtReduction then Add(p.reserve, repayment - debtReduction) else Success(p.reserve);
    var debts :- p.debts.Burn(user, burn.scaledBurn);
    var available :- Add(p.available, repayment);
    Success(p.(debts := debts, reserve := reserve, available := available))
  }

  datatype Repayment = Repayment(after: Storage, repaidAmount: nat, remainingDebt: nat)

  function RepayUsdc(p: Storage, sender: Address, amount: nat): Result<Repayment> {
    var scaledBalance := p.debts.BalanceOf(sender);
    if scaledBalance == 0 then Failure(NoDebt) else
    var currentDebt :- DebtAtIndex(scaledBalance, p.borrowIndex);
    var repaidAmount := if amount > currentDebt then currentDebt else amount;
    var burn :- ScaledDebtBurn(p, scaledBalance, repaidAmount);
    if burn.remainingDebt != 0 && burn.remainingDebt < MINIMUM_USDC_BORROW then
      Failure(RemainingDebtBelowMinimum(burn.remainingDebt)) else
    var after :- ReduceDebt(p, sender, currentDebt, repaidAmount, burn);
    Success(Repayment(after, repaidAmount, burn.remainingDebt))
  }

  datatype Seizure = Seizure(after: Storage, recognizedBadDebt: nat)

  function SeizeCollateral(p: Storage, borrower: Address, repaidAmount: nat, seized: nat): Result<Seizure> {
    var scaledBalance := p.debts.BalanceOf(borrower);
    var currentDebt :- DebtAtIndex(scaledBalance, p.borrowIndex);
    var currentCollateral := p.collateral.BalanceOf(borrower);
    if repaidAmount > currentDebt then Failure(LiquidationExceedsDebt(currentDebt, repaidAmount)) else
    if seized > currentCollateral then Failure(LiquidationExceedsCollateral(currentCollateral, seized)) else
    var burn :- ScaledDebtBurn(p, scaledBalance, repaidAmount);
    var repaid :- ReduceDebt(p, borrower, currentDebt, repaidAmount, burn);
    var collateral :- p.collateral.Burn(borrower, seized);
    if seized == currentCollateral && burn.remainingDebt != 0 then
      var debts :- repaid.debts.Burn(borrower, repaid.debts.BalanceOf(borrower));
      var badDebt :- Add(repaid.badDebt, burn.remainingDebt);
      Success(Seizure(repaid.(collateral := collateral, debts := debts, badDebt := badDebt), burn.remainingDebt))
    else
      Success(Seizure(repaid.(collateral := collateral), 0))
  }

  // The external functions -----------------------------------------------------------------

  function Supply(m: Market, p: Storage, now: nat, sender: Address, asset: Address, amount: nat): Result<Step> {
    if amount == 0 then Failure(ZeroAmount) else
    if asset != m.usdc && asset != m.weth then Failure(UnsupportedAsset) else
    var accrued :- AccrueInterest(p, now);
    var after :- if asset == m.usdc then SupplyUsdc(accrued.after, sender, amount)
                 else SupplyWeth(accrued.after, sender, amount);
    Success(Step(after, accrued.events + [Supplied(sender, asset, amount)]))
  }

  function Borrow(m: Market, p: Storage, prices: Prices, now: nat, sender: Address, asset: Address, amount: nat)
    : Result<Step>
  {
    if asset == m.weth then Failure(AssetNotBorrowable) else
    if asset != m.usdc then Failure(UnsupportedAsset) else
    if amount == 0 then Failure(ZeroAmount) else
    if amount < MINIMUM_USDC_BORROW then Failure(BorrowBelowMinimum(amount)) else
    var accrued :- AccrueInterest(p, now);
    var after :- BorrowUsdc(accrued.after, prices, sender, amount);
    Success(Step(after, accrued.events + [Borrowed(sender, asset, amount)]))
  }

  function Repay(m: Market, p: Storage, now: nat, sender: Address, asset: Address, amount: nat): Result<Step> {
    if asset == m.weth then Failure(AssetNotRepayable) else
    if asset != m.usdc then Failure(UnsupportedAsset) else
    if amount == 0 then Failure(ZeroAmount) else
    var accrued :- AccrueInterest(p, now);
    var repayment :- RepayUsdc(accrued.after, sender, amount);
    Success(Step(repayment.after,
                 accrued.events + [Repaid(sender, asset, repayment.repaidAmount, repayment.remainingDebt)]))
  }

  function Withdraw(m: Market, p: Storage, prices: Prices, now: nat, sender: Address, asset: Address, amount: nat)
    : Result<Step>
  {
    if amount == 0 then Failure(ZeroAmount) else
    if asset != m.usdc && asset != m.weth then Failure(UnsupportedAsset) else
    var accrued :- AccrueInterest(p, now);
    var after :- if asset == m.usdc then WithdrawUsdc(accrued.after, sender, amount)
                 else WithdrawWeth(accrued.after, prices, sender, amount);
    Success(Step(after, accrued.events + [Withdrawn(sender, asset, amount)]))
  }

  function ExecuteLiquidation(m: Market, p: Storage, now: nat, borrower: Address, liquidator: Address,
                              repaidAmount: nat, seized: nat): Result<Step> {
    if borrower == 0 || liquidator == 0 then Failure(InvalidAddress) else
    if repaidAmount == 0 || seized == 0 then Failure(ZeroAmount) else
    var accrued :- AccrueInterest(p, now);
    var seizure :- SeizeCollateral(accrued.after, borrower, repaidAmount, seized);
    Success(Step(seizure.after,
                 accrued.events
                 + [Liquidated(liquidator, borrower, m.usdc, m.weth, repaidAmount, seized)]
                 + if seizure.recognizedBadDebt != 0 then
                     [BadDebtRecognized(borrower, seizure.recognizedBadDebt)] else []))
  }
}
