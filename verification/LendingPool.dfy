/** The lending pool and its liquidation manager as the stateful contracts they are (LendingPool.sol,
    LiquidationManager.sol): storage updated in place, and rolled back when a call reverts. */
module LendingPool {
  import opened Results
  import opened FixedPoint
  import opened Ledgers
  import opened RiskManager
  import opened Pool
  import LM = LiquidationManager

  class LendingPool {
    const market: Market
    var collateral: Ledger
    var deposits: Ledger
    var debts: Ledger
    var availableUsdcLiquidity: nat
    var badDebt: nat
    var protocolReserve: nat
    var liquidityIndex: nat
    var borrowIndex: nat
    var lastUpdateTimestamp: nat

    constructor (market: Market, now: nat)
      ensures this.market == market && State() == Deployed(now)
    {
      this.market := market;
      collateral, deposits, debts := EMPTY, EMPTY, EMPTY;
      availableUsdcLiquidity, badDebt, protocolReserve := 0, 0, 0;
      liquidityIndex, borrowIndex, lastUpdateTimestamp := RAY, RAY, now;
    }

    /** The storage as a value. */
    function State(): Storage
      reads this
    {
      Storage(collateral, deposits, debts, availableUsdcLiquidity, badDebt, protocolReserve,
              liquidityIndex, borrowIndex, lastUpdateTimestamp)
    }

    /** Undoes every write of a call that reverted. */
    method Rollback(saved: Storage)
      modifies this
      ensures State() == saved
    {
      collateral, deposits, debts := saved.collateral, saved.deposits, saved.debts;
      availableUsdcLiquidity, badDebt, protocolReserve := saved.available, saved.badDebt, saved.reserve;
      liquidityIndex, borrowIndex, lastUpdateTimestamp := saved.liquidityIndex, saved.borrowIndex, saved.lastUpdate;
    }

    method Accrue(now: nat) returns (r: Result<seq<Event>>)
      modifies this
      ensures match AccrueInterest(old(State()), now)
              case Success(step) => r == Success(step.events) && State() == step.after
              case Failure(e) => r == Failure(e)
    {
      var elapsedSeconds :- Sub(now, lastUpdateTimestamp);
      if elapsedSeconds == 0 {
        return Success([]);
      }
      var next :- ProjectedIndices(State(), now);
      var debtBefore :- DebtAtIndex(debts.total, borrowIndex);
      var debtAfter :- DebtAtIndex(debts.total, next.borrow);
      var supplyBefore :- SupplyAtIndex(deposits.total, liquidityIndex);
      var supplyAfter :- SupplyAtIndex(deposits.total, next.liquidity);
      var debtInterest :- Sub(debtAfter, debtBefore);
      var supplierInterest :- Sub(supplyAfter, supplyBefore);
      var reserveAccrued :- Sub(debtInterest, supplierInterest);
      borrowIndex := next.borrow;
      liquidityIndex := next.liquidity;
      lastUpdateTimestamp := now;
      protocolReserve :- Add(protocolReserve, reserveAccrued);
      return Success([InterestAccrued(now, next.borrow, next.liquidity, reserveAccrued)]);
    }

    method AddUsdc(sender: Address, amount: nat) returns (r: Result<()>)
      modifies this
      ensures match SupplyUsdc(old(State()), sender, amount)
              case Success(after) => r.Success? && State() == after
              case Failure(e) => r == Failure(e)
    {
      var supplyBefore :- SupplyAtIndex(deposits.total, liquidityIndex);
      var scaledMint :- MulDivDown(amount, RAY, liquidityIndex);
      if scaledMint == 0 {
        return Failure(ScaledAmountTooSmall);
      }
      deposits :- deposits.Mint(sender, scaledMint);
      var supplyAfter :- SupplyAtIndex(deposits.total, liquidityIndex);
      var claimIncrease :- Sub(supplyAfter, supplyBefore);
      if amount > claimIncrease {
        protocolReserve :- Add(protocolReserve, amount - claimIncrease);
      }
      availableUsdcLiquidity :- Add(availableUsdcLiquidity, amount);
      return Success(());
    }

    method RemoveUsdc(sender: Address, amount: nat) returns (r: Result<()>)
      modifies this
      ensures match WithdrawUsdc(old(State()), sender, amount)
              case Success(after) => r.Success? && State() == after
              case Failure(e) => r == Failure(e)
    {
      var scaledBalance := deposits.BalanceOf(sender);
      var supplied :- SupplyAtIndex(scaledBalance, liquidityIndex);
      if amount > supplied {
        return Failure(InsufficientSupply(supplied, amount));
      }
      var available := availableUsdcLiquidity;
      if amount > available {
        return Failure(InsufficientLiquidity(available, amount));
      }
      var scaledBurn := scaledBalance;
      if amount != supplied {
        scaledBurn :- MulDivUp(amount, RAY, liquidityIndex);
      }
      if scaledBurn == 0 || scaledBurn > scaledBalance {
        return Failure(ScaledAmountTooSmall);
      }
      var supplyBefore :- SupplyAtIndex(deposits.total, liquidityIndex);
      deposits :- deposits.Burn(sender, scaledBurn);
      var supplyAfter :- SupplyAtIndex(deposits.total, liquidityIndex);
      var claimDecrease :- Sub(supplyBefore, supplyAfter);
      if claimDecrease > amount {
        protocolReserve :- Add(protocolReserve, claimDecrease - amount);
      }
      availableUsdcLiquidity := available - amount;
      return Success(());
    }

    method RemoveWeth(prices: Prices, sender: Address, amount: nat) returns (r: Result<()>)
      modifies this
      ensures match WithdrawWeth(old(State()), prices, sender, amount)
              case Success(after) => r.Success? && State() == after
              case Failure(e) => r == Failure(e)
    {
      var balance := collateral.BalanceOf(sender);
      if amount > balance {
        return Failure(InsufficientSupply(balance, amount));
      }
      var remainingCollateral := balance - amount;
      var _ :- CollateralValue(prices, remainingCollateral);
      var debt :- DebtAtIndex(debts.BalanceOf(sender), borrowIndex);
      if debt != 0 {
        var health :- HealthFactor(prices, remainingCollateral, debt);
        if health < WAD {
          return Failure(UnhealthyPosition(health));
        }
      }
      collateral :- collateral.Burn(sender, amount);
      return Success(());
    }

    method AddDebt(prices: Prices, sender: Address, amount: nat) returns (r: Result<()>)
      modifies this
      ensures match BorrowUsdc(old(State()), prices, sender, amount)
              case Success(after) => r.Success? && State() == after
              case Failure(e) => r == Failure(e)
    {
      var available := availableUsdcLiquidity;
      if amount > available {
        return Failure(InsufficientLiquidity(available, amount));
      }
      var scaledBalance := debts.BalanceOf(sender);
      var scaledMint :- MulDivUp(amount, RAY, borrowIndex);
      if scaledMint == 0 {
        return Failure(ScaledAmountTooSmall);
      }
      var currentDebt :- DebtAtIndex(scaledBalance, borrowIndex);
      var newScaled :- Add(scaledBalance, scaledMint);
      var newDebt :- DebtAtIndex(newScaled, borrowIndex);
      var maxBorrowValueWad :- MaxBorrow(prices, collateral.BalanceOf(sender));
      var newDebtValueWad :- DebtValue(prices, newDebt);
      if newDebtValueWad > maxBorrowValueWad {
        return Failure(BorrowCapacityExceeded(newDebtValueWad, maxBorrowValueWad));
      }
      var health :- HealthFactor(prices, collateral.BalanceOf(sender), newDebt);
      if health < WAD {
        return Failure(UnhealthyPosition(health));
      }
      var debtIncrease :- Sub(newDebt, currentDebt);
      if debtIncrease > amount {
        protocolReserve :- Add(protocolReserve, debtIncrease - amount);
      }
      availableUsdcLiquidity := available - amount;
      debts :- debts.Mint(sender, scaledMint);
      return Success(());
    }

    method RemoveDebt(user: Address, currentDebt: nat, repayment: nat, burn: DebtBurn) returns (r: Result<()>)
      modifies this
      ensures match ReduceDebt(old(State()), user, currentDebt, repayment, burn)
              case Success(after) => r.Success? && State() == after
              case Failure(e) => r == Failure(e)
    {
      var debtReduction :- Sub(currentDebt, burn.remainingDebt);
      if repayment > debtReduction {
        protocolReserve :- Add(protocolReserve, repayment - debtReduction);
      }
      debts :- debts.Burn(user, burn.scaledBurn);
      availableUsdcLiquidity :- Add(availableUsdcLiquidity, repayment);
      return Success(());
    }

    method Supply(now: nat, sender: Address, asset: Address, amount: nat) returns (r: Result<seq<Event>>)
      modifies this
      ensures match Pool.Supply(market, old(State()), now, sender, asset, amount)
              case Success(step) => r == Success(step.events) && State() == step.after
              case Failure(e) => r == Failure(e) && State() == old(State())
    {
      var saved := State();
      r := SupplyBody(now, sender, asset, amount);
      if r.Failure? {
        Rollback(saved);
      }
    }

    method SupplyBody(now: nat, sender: Address, asset: Address, amount: nat) returns (r: Result<seq<Event>>)
      modifies this
      ensures match Pool.Supply(market, old(State()), now, sender, asset, amount)
              case Success(step) => r == Success(step.events) && State() == step.after
              case Failure(e) => r == Failure(e)
    {
      hide AccrueInterest;
      if amount == 0 {
        return Failure(ZeroAmount);
      }
      if asset != market.usdc && asset != market.weth {
        return Failure(UnsupportedAsset);
      }
      var events :- Accrue(now);
      if asset == market.usdc {
        var _ :- AddUsdc(sender, amount);
      } else {
        collateral :- collateral.Mint(sender, amount);
      }
      return Success(events + [Supplied(sender, asset, amount)]);
    }

    method Withdraw(prices: Prices, now: nat, sender: Address, asset: Address, amount: nat)
      returns (r: Result<seq<Event>>)
      modifies this
      ensures match Pool.Withdraw(market, old(State()), prices, now, sender, asset, amount)
              case Success(step) => r == Success(step.events) && State() == step.after
              case Failure(e) => r == Failure(e) && State() == old(State())
    {
      var saved := State();
      r := WithdrawBody(prices, now, sender, asset, amount);
      if r.Failure? {
        Rollback(saved);
      }
    }

    method WithdrawBody(prices: Prices, now: nat, sender: Address, asset: Address, amount: nat)
      returns (r: Result<seq<Event>>)
      modifies this
      ensures match Pool.Withdraw(market, old(State()), prices, now, sender, asset, amount)
              case Success(step) => r == Success(step.events) && State() == step.after
              case Failure(e) => r == Failure(e)
    {
      hide AccrueInterest;
      if amount == 0 {
        return Failure(ZeroAmount);
      }
      if asset != market.usdc && asset != market.weth {
        return Failure(UnsupportedAsset);
      }
      var events :- Accrue(now);
      if asset == market.usdc {
        var _ :- RemoveUsdc(sender, amount);
      } else {
        var _ :- RemoveWeth(prices, sender, amount);
      }
      return Success(events + [Withdrawn(sender, asset, amount)]);
    }

    method Borrow(prices: Prices, now: nat, sender: Address, asset: Address, amount: nat)
      returns (r: Result<seq<Event>>)
      modifies this
      ensures match Pool.Borrow(market, old(State()), prices, now, sender, asset, amount)
              case Success(step) => r == Success(step.events) && State() == step.after
              case Failure(e) => r == Failure(e) && State() == old(State())
    {
      var saved := State();
      r := BorrowBody(prices, now, sender, asset, amount);
      if r.Failure? {
        Rollback(saved);
      }
    }

    method BorrowBody(prices: Prices, now: nat, sender: Address, asset: Address, amount: nat)
      returns (r: Result<seq<Event>>)
      modifies this
      ensures match Pool.Borrow(market, old(State()), prices, now, sender, asset, amount)
              case Success(step) => r == Success(step.events) && State() == step.after
              case Failure(e) => r == Failure(e)
    {
      hide AccrueInterest;
      if asset == market.weth {
        return Failure(AssetNotBorrowable);
      }
      if asset != market.usdc {
        return Failure(UnsupportedAsset);
      }
      if amount == 0 {
        return Failure(ZeroAmount);
      }
      if amount < MINIMUM_USDC_BORROW {
        return Failure(BorrowBelowMinimum(amount));
      }
      var events :- Accrue(now);
      var _ :- AddDebt(prices, sender, amount);
      return Success(events + [Borrowed(sender, asset, amount)]);
    }

    method Repay(now: nat, sender: Address, asset: Address, amount: nat) returns (r: Result<seq<Event>>)
      modifies this
      ensures match Pool.Repay(market, old(State()), now, sender, asset, amount)
              case Success(step) => r == Success(step.events) && State() == step.after
              case Failure(e) => r == Failure(e) && State() == old(State())
    {
      var saved := State();
      r := RepayBody(now, sender, asset, amount);
      if r.Failure? {
        Rollback(saved);
      }
    }

    method RepayBody(now: nat, sender: Address, asset: Address, amount: nat) returns (r: Result<seq<Event>>)
      modifies this
      ensures match Pool.Repay(market, old(State()), now, sender, asset, amount)
              case Success(step) => r == Success(step.events) && State() == step.after
              case Failure(e) => r == Failure(e)
    {
      hide AccrueInterest;
      if asset == market.weth {
        return Failure(AssetNotRepayable);
      }
      if asset != market.usdc {
        return Failure(UnsupportedAsset);
      }
      if amount == 0 {
        return Failure(ZeroAmount);
      }
      var events :- Accrue(now);
      var scaledBalance := debts.BalanceOf(sender);
      if scaledBalance == 0 {
        return Failure(NoDebt);
      }
      var currentDebt :- DebtAtIndex(scaledBalance, borrowIndex);
      var repaidAmount := if amount > currentDebt then currentDebt else amount;
      var burn :- ScaledDebtBurn(State(), scaledBalance, repaidAmount);
      if burn.remainingDebt != 0 && burn.remainingDebt < MINIMUM_USDC_BORROW {
        return Failure(RemainingDebtBelowMinimum(burn.remainingDebt));
      }
      var _ :- RemoveDebt(sender, currentDebt, repaidAmount, burn);
      return Success(events + [Repaid(sender, asset, repaidAmount, burn.remainingDebt)]);
    }

    /** Returns the bad debt it recognized, which is what the pool's bad debt grew by. */
    method ExecuteLiquidation(now: nat, borrower: Address, liquidator: Address, repaidAmount: nat, seized: nat)
      returns (r: Result<seq<Event>>, recognizedBadDebt: nat)
      modifies this
      ensures r.Success? ==> Moves(old(State()), State(), borrower, repaidAmount, seized, recognizedBadDebt)
      ensures match Pool.ExecuteLiquidation(market, old(State()), now, borrower, liquidator, repaidAmount, seized)
              case Success(step) => r == Success(step.events) && State() == step.after
              case Failure(e) => r == Failure(e) && State() == old(State())
    {
      var saved := State();
      r, recognizedBadDebt := ExecuteLiquidationBody(now, borrower, liquidator, repaidAmount, seized);
      if r.Failure? {
        Rollback(saved);
      }
    }

    method ExecuteLiquidationBody(now: nat, borrower: Address, liquidator: Address, repaidAmount: nat, seized: nat)
      returns (r: Result<seq<Event>>, recognizedBadDebt: nat)
      modifies this
      ensures r.Success? ==> Moves(old(State()), State(), borrower, repaidAmount, seized, recognizedBadDebt)
      ensures match Pool.ExecuteLiquidation(market, old(State()), now, borrower, liquidator, repaidAmount, seized)
              case Success(step) => r == Success(step.events) && State() == step.after
              case Failure(e) => r == Failure(e)
    {
      hide AccrueInterest, SeizeCollateral;
      recognizedBadDebt := 0;
      if borrower == 0 || liquidator == 0 {
        r := Failure(InvalidAddress);
        return;
      }
      if repaidAmount == 0 || seized == 0 {
        r := Failure(ZeroAmount);
        return;
      }
      AccrualMovesNothing(State(), now);
      var accrued := Accrue(now);
      if accrued.Failure? {
        r := Failure(accrued.error);
        return;
      }
      var events := accrued.value;
      SeizureMoves(State(), borrower, repaidAmount, seized);
      var seizure := Seize(borrower, repaidAmount, seized);
      if seizure.Failure? {
        r := Failure(seizure.error);
        return;
      }
      recognizedBadDebt := seizure.value;
      events := events + [Liquidated(liquidator, borrower, market.usdc, market.weth, repaidAmount, seized)];
      if recognizedBadDebt != 0 {
        events := events + [BadDebtRecognized(borrower, recognizedBadDebt)];
      } else {
        assert events + [] == events;
      }
      r := Success(events);
    }

    method Seize(borrower: Address, repaidAmount: nat, seized: nat) returns (r: Result<nat>)
      modifies this
      ensures match SeizeCollateral(old(State()), borrower, repaidAmount, seized)
              case Success(seizure) => r == Success(seizure.recognizedBadDebt) && State() == seizure.after
              case Failure(e) => r == Failure(e)
    {
      var scaledBalance := debts.BalanceOf(borrower);
      var currentDebt :- DebtAtIndex(scaledBalance, borrowIndex);
      var currentCollateral := collateral.BalanceOf(borrower);
      if repaidAmount > currentDebt {
        return Failure(LiquidationExceedsDebt(currentDebt, repaidAmount));
      }
      if seized > currentCollateral {
        return Failure(LiquidationExceedsCollateral(currentCollateral, seized));
      }
      var burn :- ScaledDebtBurn(State(), scaledBalance, repaidAmount);
      var _ :- RemoveDebt(borrower, currentDebt, repaidAmount, burn);
      var remainingCollateral := currentCollateral - seized;
      collateral :- collateral.Burn(borrower, seized);
      var recognizedBadDebt := 0;
      if remainingCollateral == 0 && burn.remainingDebt != 0 {
        recognizedBadDebt := burn.remainingDebt;
        debts :- debts.Burn(borrower, debts.BalanceOf(borrower));
        badDebt :- Add(badDebt, recognizedBadDebt);
      }
      return Success(recognizedBadDebt);
    }
  }

  /** What a liquidation moves: USDC in, the borrower's WETH out, and debt written off. */
  predicate Moves(p: Storage, q: Storage, borrower: Address, repaid: nat, seized: nat, recognizedBadDebt: nat) {
    && q.available == p.available + repaid
    && q.collateral.BalanceOf(borrower) + seized == p.collateral.BalanceOf(borrower)
    && q.badDebt == p.badDebt + recognizedBadDebt
  }

  lemma AccrualMovesNothing(p: Storage, now: nat)
    ensures AccrueInterest(p, now).Success? ==>
              var q := AccrueInterest(p, now).value.after;
              q.available == p.available && q.collateral == p.collateral && q.badDebt == p.badDebt
  {
    hide ProjectedIndices, InterestSplit;
  }

  lemma SeizureMoves(p: Storage, borrower: Address, repaid: nat, seized: nat)
    ensures SeizeCollateral(p, borrower, repaid, seized).Success? ==>
              var s := SeizeCollateral(p, borrower, repaid, seized).value;
              Moves(p, s.after, borrower, repaid, seized, s.recognizedBadDebt)
  {
    hide MulDivUp, ScaledDebtBurn;
  }

  class LiquidationManager {
    const pool: LendingPool

    constructor (pool: LendingPool)
      ensures this.pool == pool
    {
      this.pool := pool;
    }

    /** The sizing, with the repayment and the seizure reassigned as the caps bind. */
    static method Calculate(prices: Prices, debt: nat, collateral: nat, requestedRepay: nat)
      returns (r: Result<LM.Sizing>)
      ensures r == LM.CalculateLiquidation(prices, debt, collateral, requestedRepay)
    {
      var closeFactorLimit :- MulDivDown(debt, LM.CLOSE_FACTOR_BPS, BPS);
      var rest :- Sub(debt, closeFactorLimit);
      if rest < MINIMUM_USDC_BORROW {
        closeFactorLimit := debt;
      }
      var value :- CollateralValue(prices, collateral);
      var limitedValue :- MulDivDown(value, BPS, BPS + LM.LIQUIDATION_BONUS_BPS);
      var collateralLimitedRepay :- DebtAmountForValueDown(prices, limitedValue);
      var repaidAmount := Min(requestedRepay, Min(closeFactorLimit, collateralLimitedRepay));
      var remainingDebt :- Sub(debt, repaidAmount);
      var collateralLimited := collateralLimitedRepay <= requestedRepay && collateralLimitedRepay <= closeFactorLimit;
      if !collateralLimited && remainingDebt != 0 && remainingDebt < MINIMUM_USDC_BORROW {
        repaidAmount :- Sub(debt, MINIMUM_USDC_BORROW);
      }
      if repaidAmount == 0 {
        return Failure(LiquidationAmountTooSmall);
      }
      var debtValue :- DebtValue(prices, repaidAmount);
      var valueWithBonus :- MulDivDown(debtValue, BPS + LM.LIQUIDATION_BONUS_BPS, BPS);
      var collateralSeized :- CollateralAmountForValueDown(prices, valueWithBonus);
      if collateralSeized == 0 {
        return Failure(LiquidationAmountTooSmall);
      }
      if collateralLimited {
        collateralSeized := collateral;
      }
      return Success(LM.Sizing(repaidAmount, collateralSeized));
    }

    /** Returns the amounts it liquidated, which are what the pool's books moved by. */
    method Liquidate(prices: Prices, now: nat, sender: Address, borrower: Address, debtAsset: Address,
                     collateralAsset: Address, requestedRepay: nat, minCollateralOut: nat)
      returns (r: Result<seq<Event>>, repaidAmount: nat, collateralSeized: nat, recognizedBadDebt: nat)
      modifies pool
      ensures match LM.Liquidate(pool.market, old(pool.State()), prices, now, sender, borrower, debtAsset,
                                 collateralAsset, requestedRepay, minCollateralOut)
              case Success(step) => r == Success(step.events) && pool.State() == step.after
              case Failure(e) => r == Failure(e) && pool.State() == old(pool.State())
      ensures r.Success? ==>
                && Moves(old(pool.State()), pool.State(), borrower, repaidAmount, collateralSeized, recognizedBadDebt)
                && minCollateralOut <= collateralSeized
    {
      hide LM.CalculateLiquidation, LM.ValidatedPosition, Pool.ExecuteLiquidation, Moves;
      repaidAmount, collateralSeized, recognizedBadDebt := 0, 0, 0;
      if borrower == 0 {
        r := Failure(InvalidAddress);
        return;
      }
      if debtAsset != pool.market.usdc {
        r := Failure(UnsupportedDebtAsset);
        return;
      }
      if collateralAsset != pool.market.weth {
        r := Failure(UnsupportedCollateralAsset);
        return;
      }
      if requestedRepay == 0 {
        r := Failure(ZeroAmount);
        return;
      }
      var position := LM.ValidatedPosition(pool.State(), prices, now, borrower);
      if position.Failure? {
        r := Failure(position.error);
        return;
      }
      var sizing := Calculate(prices, position.value.debt, position.value.collateral, requestedRepay);
      if sizing.Failure? {
        r := Failure(sizing.error);
        return;
      }
      repaidAmount, collateralSeized := sizing.value.repaidAmount, sizing.value.collateralSeized;
      if collateralSeized < minCollateralOut {
        r := Failure(CollateralOutputBelowMinimum(collateralSeized, minCollateralOut));
        return;
      }
      r, recognizedBadDebt := pool.ExecuteLiquidation(now, borrower, sender, repaidAmount, collateralSeized);
    }
  }
}
