/** What each successful pool operation does to the books, with every rounding resolved. */
module PoolEffects {
  import opened Results
  import opened FixedPoint
  import opened Ledgers
  import opened RiskManager
  import opened Pool
  import opened AccrualSoundness

  /** What every reachable storage satisfies: indices of at least one RAY, totals that are sums. */
  ghost predicate Books(p: Storage) {
    && Indexed(p)
    && p.collateral.Valid() && p.deposits.Valid() && p.debts.Valid()
  }

  /** The books, and a reserve that fits 256 bits. */
  ghost predicate Sound(p: Storage) {
    Books(p) && p.reserve <= MAX_UINT256
  }

  /** The accounting gap: liquidity, performing and bad debt against supplier claims and the reserve. */
  ghost function Gap(p: Storage): int {
    p.available + TotalDebt(p) + p.badDebt - TotalSupply(p) - p.reserve
  }

  lemma SupplyUsdcEffect(p: Storage, sender: Address, amount: nat)
    requires Books(p) && SupplyUsdc(p, sender, amount).Success?
    ensures var q := SupplyUsdc(p, sender, amount).value;
            var minted := Floor(amount, RAY, p.liquidityIndex);
            && 0 < minted && minted * p.liquidityIndex <= amount * RAY
            && p.deposits.Mint(sender, minted).Success?
            && 0 <= TotalSupply(q) - TotalSupply(p) <= amount
            && q == p.(deposits := p.deposits.Mint(sender, minted).value,
                       available := p.available + amount,
                       reserve := p.reserve + amount - (TotalSupply(q) - TotalSupply(p)))
            && Books(q) && Gap(q) == Gap(p)
  {
    hide Floor, Ceil;
    var minted := Floor(amount, RAY, p.liquidityIndex);
    MintEffect(p.deposits, sender, minted);
    SplitSum(p.deposits.total, minted, p.liquidityIndex, RAY);
    RoundTrip(amount, p.liquidityIndex);
  }

  lemma WithdrawUsdcEffect(p: Storage, sender: Address, amount: nat)
    requires Books(p) && WithdrawUsdc(p, sender, amount).Success?
    ensures var q := WithdrawUsdc(p, sender, amount).value;
            var balance := p.deposits.BalanceOf(sender);
            var burnt := if amount == Floor(balance, p.liquidityIndex, RAY) then balance
                         else Ceil(amount, RAY, p.liquidityIndex);
            && 0 < burnt <= balance && amount * RAY <= burnt * p.liquidityIndex
            && p.deposits.Burn(sender, burnt).Success?
            && amount <= TotalSupply(p) - TotalSupply(q) && amount <= p.available
            && q == p.(deposits := p.deposits.Burn(sender, burnt).value,
                       available := p.available - amount,
                       reserve := p.reserve + (TotalSupply(p) - TotalSupply(q)) - amount)
            && Books(q) && Gap(q) == Gap(p)
  {
    hide Floor, Ceil;
    var balance := p.deposits.BalanceOf(sender);
    var burnt := if amount == Floor(balance, p.liquidityIndex, RAY) then balance
                 else Ceil(amount, RAY, p.liquidityIndex);
    BurnEffect(p.deposits, sender, burnt);
    SplitSum(p.deposits.total - burnt, burnt, p.liquidityIndex, RAY);
    RoundTrip(amount, p.liquidityIndex);
    FloorBounds(balance, p.liquidityIndex, RAY);
  }

  /** A withdrawal within the claim and the liquidity is never rejected for its scaled size. */
  lemma WithdrawalWithinClaimIsNeverTooSmall(p: Storage, sender: Address, amount: nat)
    requires Books(p) && amount > 0
    ensures WithdrawUsdc(p, sender, amount) != Failure(ScaledAmountTooSmall)
  {
    hide Floor, Ceil;
    var balance := p.deposits.BalanceOf(sender);
    FloorBounds(balance, p.liquidityIndex, RAY);
    ZeroProduct(p.liquidityIndex, RAY);
    if amount < Floor(balance, p.liquidityIndex, RAY) {
      MulMono(amount, Floor(balance, p.liquidityIndex, RAY), RAY);
      CeilLeast(amount, RAY, p.liquidityIndex, balance);
      CeilPositive(amount, RAY, p.liquidityIndex);
    }
  }

  lemma CollateralEffect(p: Storage, prices: Prices, sender: Address, amount: nat)
    requires Books(p)
    ensures SupplyWeth(p, sender, amount).Success? ==>
              var q := SupplyWeth(p, sender, amount).value;
              && q == p.(collateral := q.collateral)
              && Books(q) && Gap(q) == Gap(p)
              && q.collateral.BalanceOf(sender) == p.collateral.BalanceOf(sender) + amount
              && forall a :: a != sender ==> q.collateral.BalanceOf(a) == p.collateral.BalanceOf(a)
    ensures WithdrawWeth(p, prices, sender, amount).Success? ==>
              var q := WithdrawWeth(p, prices, sender, amount).value;
              && q == p.(collateral := q.collateral)
              && Books(q) && Gap(q) == Gap(p)
              && amount <= p.collateral.BalanceOf(sender)
              && q.collateral.BalanceOf(sender) == p.collateral.BalanceOf(sender) - amount
              && forall a :: a != sender ==> q.collateral.BalanceOf(a) == p.collateral.BalanceOf(a)
  {
    hide Floor, Ceil;
    MintEffect(p.collateral, sender, amount);
    BurnEffect(p.collateral, sender, amount);
  }

  /** A user's performing debt with its rounding resolved. */
  ghost function UserDebt(p: Storage, user: Address): nat {
    Ceil(p.debts.BalanceOf(user), p.borrowIndex, RAY)
  }

  /** The rounded worth of a scaled debt. */
  ghost function Worth(units: int, index: nat): int {
    if units < 0 then 0 else Ceil(units, index, RAY)
  }

  /** The scaled units a repayment burns. */
  ghost function BurntUnits(p: Storage, user: Address, repayment: nat): nat
    requires p.borrowIndex > 0
  {
    if repayment >= UserDebt(p, user) then p.debts.BalanceOf(user) else Floor(repayment, RAY, p.borrowIndex)
  }

  lemma BorrowEffect(p: Storage, prices: Prices, sender: Address, amount: nat)
    requires Books(p) && prices.Positive() && BorrowUsdc(p, prices, sender, amount).Success?
    ensures var q := BorrowUsdc(p, prices, sender, amount).value;
            var minted := Ceil(amount, RAY, p.borrowIndex);
            && 0 < minted && amount * RAY <= minted * p.borrowIndex
            && p.debts.Mint(sender, minted).Success?
            && amount <= UserDebt(q, sender) - UserDebt(p, sender) && amount <= p.available
            && q == p.(debts := p.debts.Mint(sender, minted).value,
                       available := p.available - amount,
                       reserve := p.reserve + (UserDebt(q, sender) - UserDebt(p, sender)) - amount)
            && Books(q)
            && Gap(q) - Gap(p) == (TotalDebt(q) - TotalDebt(p)) - (UserDebt(q, sender) - UserDebt(p, sender))
            && -1 <= Gap(q) - Gap(p) <= 1
            && (amount > 0 ==> p.collateral.BalanceOf(sender) > 0)
  {
    hide Floor, Ceil, MaxBorrow, DebtValue, HealthFactor;
    var minted := Ceil(amount, RAY, p.borrowIndex);
    MintEffect(p.debts, sender, minted);
    SplitSum(p.debts.total, minted, p.borrowIndex, RAY);
    SplitSum(p.debts.BalanceOf(sender), minted, p.borrowIndex, RAY);
    CeilBounds(minted, p.borrowIndex, RAY);
    RoundTrip(amount, p.borrowIndex);
    if amount > 0 {
      DebtNeedsCollateral(prices, Ceil(p.debts.BalanceOf(sender) + minted, p.borrowIndex, RAY));
    }
  }

  /** Burning part of a debt: what is left never falls below the debt minus the repayment, and exceeds it
      by less than the value of one scaled unit. */
  lemma DebtBurnEffect(p: Storage, user: Address, repayment: nat)
    requires Books(p) && ScaledDebtBurn(p, p.debts.BalanceOf(user), repayment).Success?
    requires repayment <= UserDebt(p, user)
    ensures var burn := ScaledDebtBurn(p, p.debts.BalanceOf(user), repayment).value;
            var balance := p.debts.BalanceOf(user);
            && burn.scaledBurn <= balance
            && burn.scaledBurn == (if repayment == UserDebt(p, user) then balance
                                   else Floor(repayment, RAY, p.borrowIndex))
            && burn.remainingDebt == Ceil(balance - burn.scaledBurn, p.borrowIndex, RAY)
            && (burn.remainingDebt == 0 <==> balance == burn.scaledBurn)
            && (repayment == UserDebt(p, user) ==> burn.remainingDebt == 0)
            && (repayment < UserDebt(p, user) ==> burn.scaledBurn * p.borrowIndex <= repayment * RAY)
            && UserDebt(p, user) - repayment <= burn.remainingDebt
               <= UserDebt(p, user) - repayment + Ceil(1, p.borrowIndex, RAY)
  {
    hide Floor, Ceil;
    var balance := p.debts.BalanceOf(user);
    var burn := ScaledDebtBurn(p, balance, repayment).value;
    ZeroProduct(p.borrowIndex, RAY);
    if balance > burn.scaledBurn {
      CeilPositive(balance - burn.scaledBurn, p.borrowIndex, RAY);
    }
    if repayment < UserDebt(p, user) {
      RoundTrip(repayment, p.borrowIndex);
      SplitSum(balance - burn.scaledBurn, burn.scaledBurn, p.borrowIndex, RAY);
      BurnLosesLittle(repayment, p.borrowIndex);
    }
  }

  /** Flooring a repayment to scaled units loses less than one unit's worth. */
  lemma BurnLosesLittle(repayment: nat, index: nat)
    requires index >= RAY
    ensures repayment <= Floor(Floor(repayment, RAY, index), index, RAY) + Ceil(1, index, RAY)
  {
    hide Floor, Ceil;
    var scaled := Floor(repayment, RAY, index);
    FloorBounds(repayment, RAY, index);
    SplitSum(scaled, 1, index, RAY);
    assert repayment * RAY < (scaled + 1) * index;
    FloorGreatest(scaled + 1, index, RAY, repayment);
  }

  /** The books after `user`'s debt has been reduced by a burn. */
  lemma ReduceDebtEffect(p: Storage, user: Address, repayment: nat)
    requires Books(p) && ScaledDebtBurn(p, p.debts.BalanceOf(user), repayment).Success?
    requires repayment <= UserDebt(p, user)
    requires ReduceDebt(p, user, UserDebt(p, user), repayment,
                        ScaledDebtBurn(p, p.debts.BalanceOf(user), repayment).value).Success?
    ensures var burn := ScaledDebtBurn(p, p.debts.BalanceOf(user), repayment).value;
            var q := ReduceDebt(p, user, UserDebt(p, user), repayment, burn).value;
            && p.debts.Burn(user, burn.scaledBurn).Success?
            && UserDebt(q, user) == burn.remainingDebt
            && 0 <= UserDebt(p, user) - burn.remainingDebt <= repayment
            && q == p.(debts := p.debts.Burn(user, burn.scaledBurn).value,
                       available := p.available + repayment,
                       reserve := p.reserve + repayment - (UserDebt(p, user) - burn.remainingDebt))
            && Books(q)
            && Gap(q) - Gap(p) == (TotalDebt(q) - TotalDebt(p)) - (UserDebt(q, user) - UserDebt(p, user))
            && -1 <= Gap(q) - Gap(p) <= 1
  {
    hide Floor, Ceil, ScaledDebtBurn;
    var burn := ScaledDebtBurn(p, p.debts.BalanceOf(user), repayment).value;
    DebtBurnEffect(p, user, repayment);
    BurnEffect(p.debts, user, burn.scaledBurn);
    SplitSum(p.debts.total - burn.scaledBurn, burn.scaledBurn, p.borrowIndex, RAY);
    SplitSum(p.debts.BalanceOf(user) - burn.scaledBurn, burn.scaledBurn, p.borrowIndex, RAY);
    CeilBounds(burn.scaledBurn, p.borrowIndex, RAY);
  }

  lemma RepayEffect(p: Storage, sender: Address, amount: nat)
    requires Books(p) && RepayUsdc(p, sender, amount).Success?
    ensures var r := RepayUsdc(p, sender, amount).value;
            && r.repaidAmount == Min(amount, UserDebt(p, sender))
            && p.debts.BalanceOf(sender) > 0
            && ScaledDebtBurn(p, p.debts.BalanceOf(sender), r.repaidAmount).Success?
            && var burn := ScaledDebtBurn(p, p.debts.BalanceOf(sender), r.repaidAmount).value;
               && burn.remainingDebt == r.remainingDebt
               && (r.remainingDebt == 0 || r.remainingDebt >= MINIMUM_USDC_BORROW)
               && ReduceDebt(p, sender, UserDebt(p, sender), r.repaidAmount, burn) == Success(r.after)
  {
    hide Floor, Ceil, ScaledDebtBurn, ReduceDebt;
  }

  /** A liquidation: the debt is reduced, the collateral seized, and debt left without collateral becomes
      bad debt, so that the borrower keeps performing debt only with collateral behind it. */
  lemma SeizeEffect(p: Storage, borrower: Address, repaid: nat, seized: nat)
    requires Books(p) && SeizeCollateral(p, borrower, repaid, seized).Success?
    ensures var r := SeizeCollateral(p, borrower, repaid, seized).value;
            && repaid <= UserDebt(p, borrower) && seized <= p.collateral.BalanceOf(borrower)
            && ScaledDebtBurn(p, p.debts.BalanceOf(borrower), repaid).Success?
            && var burn := ScaledDebtBurn(p, p.debts.BalanceOf(borrower), repaid).value;
               && ReduceDebt(p, borrower, UserDebt(p, borrower), repaid, burn).Success?
               && p.collateral.Burn(borrower, seized).Success?
               && var mid := ReduceDebt(p, borrower, UserDebt(p, borrower), repaid, burn).value;
                  var exhausted := seized == p.collateral.BalanceOf(borrower) && burn.remainingDebt != 0;
                  && mid.debts.Burn(borrower, mid.debts.BalanceOf(borrower)).Success?
                  && r.recognizedBadDebt == (if exhausted then burn.remainingDebt else 0)
                  && r.after == mid.(collateral := p.collateral.Burn(borrower, seized).value,
                                     debts := if exhausted then
                                                mid.debts.Burn(borrower, mid.debts.BalanceOf(borrower)).value
                                              else mid.debts,
                                     badDebt := p.badDebt + r.recognizedBadDebt)
                  && Books(r.after)
                  && (exhausted ==> r.after.debts.BalanceOf(borrower) == 0)
                  && Gap(r.after) - Gap(p) ==
                     (TotalDebt(r.after) - TotalDebt(p))
                     + (UserDebt(p, borrower) - UserDebt(r.after, borrower))
                  && -1 <= Gap(r.after) - Gap(p) <= 1
  {
    hide Floor, Ceil, ScaledDebtBurn;
    var balance := p.debts.BalanceOf(borrower);
    var burn := ScaledDebtBurn(p, balance, repaid).value;
    BurnEffect(p.collateral, borrower, seized);
    assert ReduceDebt(p, borrower, UserDebt(p, borrower), repaid, burn).Success?;
    var mid := ReduceDebt(p, borrower, UserDebt(p, borrower), repaid, burn).value;
    ReduceDebtEffect(p, borrower, repaid);
    DebtBurnEffect(p, borrower, repaid);
    BurnEffect(p.debts, borrower, burn.scaledBurn);
    BurnEffect(mid.debts, borrower, mid.debts.BalanceOf(borrower));
    SplitSum(p.debts.total - balance, balance, p.borrowIndex, RAY);
    CeilBounds(balance, p.borrowIndex, RAY);
    ZeroProduct(p.borrowIndex, RAY);
  }
}
