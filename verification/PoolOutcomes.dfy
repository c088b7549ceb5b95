/** Exactly when each pool operation succeeds, and with which error it reverts otherwise. */
module PoolOutcomes {
  import opened Results
  import opened FixedPoint
  import opened Ledgers
  import opened RiskManager
  import opened Pool
  import opened LiquidationManager
  import opened AccrualSoundness
  import opened PoolEffects
  import opened Protocol

  // Repaying -----------------------------------------------------------------------------------

  /** A partial repayment worth less than one scaled unit. */
  ghost predicate BelowOneUnit(p: Storage, borrower: Address, repaid: nat) {
    repaid < UserDebt(p, borrower) && repaid * RAY < p.borrowIndex
  }

  /** The debt left after a repayment. */
  ghost function DebtLeft(p: Storage, borrower: Address, repaid: nat): int
    requires p.borrowIndex > 0
  {
    Worth(p.debts.BalanceOf(borrower) - BurntUnits(p, borrower, repaid), p.borrowIndex)
  }

  /** What a liquidation adds to the liquidity, to the reserve and to the bad debt fits 256 bits. */
  ghost predicate HasRoom(p: Storage, borrower: Address, repaid: nat, seized: nat)
    requires p.borrowIndex > 0
  {
    var left := DebtLeft(p, borrower, repaid);
    && p.available + repaid <= MAX_UINT256
    && p.reserve + repaid - (UserDebt(p, borrower) - left) <= MAX_UINT256
    && (seized == p.collateral.BalanceOf(borrower) && left != 0 ==> p.badDebt + left <= MAX_UINT256)
  }

  lemma BurnOutcome(p: Storage, user: Address, repaid: nat)
    requires Books(p) && repaid <= UserDebt(p, user) <= MAX_UINT256
    ensures BurntUnits(p, user, repaid) <= p.debts.BalanceOf(user)
    ensures 0 <= DebtLeft(p, user, repaid) <= UserDebt(p, user)
    ensures ScaledDebtBurn(p, p.debts.BalanceOf(user), repaid) ==
            if BelowOneUnit(p, user, repaid) then Failure(ScaledAmountTooSmall)
            else Success(DebtBurn(BurntUnits(p, user, repaid), DebtLeft(p, user, repaid)))
  {
    hide Floor, Ceil;
    var balance, index := p.debts.BalanceOf(user), p.borrowIndex;
    ZeroProduct(index, RAY);
    if repaid < UserDebt(p, user) {
      var burnt := Floor(repaid, RAY, index);
      CeilBounds(balance, index, RAY);
      FloorBounds(repaid, RAY, index);
      MulMono(repaid, UserDebt(p, user) - 1, RAY);
      MulCancel(burnt, balance, index);
      CeilMono(balance - burnt, index, balance, index, RAY);
      FloorWithin(repaid, index);
    }
  }

  lemma FloorWithin(repaid: nat, index: nat)
    requires index >= RAY
    ensures Floor(repaid, RAY, index) <= repaid
    ensures Floor(repaid, RAY, index) == 0 <==> repaid * RAY < index
  {
    hide Floor;
    FloorBounds(repaid, RAY, index);
    if repaid * RAY < index {
      MulCancel(Floor(repaid, RAY, index), 0, index);
    }
    MulMono(RAY, index, repaid);
    MulCancel(Floor(repaid, RAY, index), repaid, index);
  }

  lemma ReduceOutcome(p: Storage, user: Address, repaid: nat)
    requires Sound(p) && repaid <= UserDebt(p, user) <= MAX_UINT256 && !BelowOneUnit(p, user, repaid)
    ensures var burn := DebtBurn(BurntUnits(p, user, repaid), DebtLeft(p, user, repaid));
            var r := ReduceDebt(p, user, UserDebt(p, user), repaid, burn);
            && (r.Failure? ==> r.error == Overflow)
            && (r.Success? <==>
                && p.available + repaid <= MAX_UINT256
                && p.reserve + repaid - (UserDebt(p, user) - burn.remainingDebt) <= MAX_UINT256)
            && (r.Success? ==> r.value.debts.Valid() && r.value.badDebt == p.badDebt)
  {
    hide Floor, Ceil, ScaledDebtBurn, DebtLeft, BurntUnits, BelowOneUnit;
    BurnOutcome(p, user, repaid);
    DebtBurnEffect(p, user, repaid);
    BurnEffect(p.debts, user, BurntUnits(p, user, repaid));
  }

  /** A seizure within the position reverts only below one scaled unit or on overflow. */
  lemma SeizeOutcome(p: Storage, borrower: Address, repaid: nat, seized: nat)
    requires Sound(p) && repaid <= UserDebt(p, borrower) <= MAX_UINT256 && seized <= p.collateral.BalanceOf(borrower)
    ensures var r := SeizeCollateral(p, borrower, repaid, seized);
            if BelowOneUnit(p, borrower, repaid) then r == Failure(ScaledAmountTooSmall)
            else if HasRoom(p, borrower, repaid, seized) then r.Success?
            else r == Failure(Overflow)
  {
    hide Floor, Ceil, ScaledDebtBurn, DebtLeft, BurntUnits, BelowOneUnit, ReduceDebt;
    BurnOutcome(p, borrower, repaid);
    BurnEffect(p.collateral, borrower, seized);
    if !BelowOneUnit(p, borrower, repaid) {
      ReduceOutcome(p, borrower, repaid);
      var burn := DebtBurn(BurntUnits(p, borrower, repaid), DebtLeft(p, borrower, repaid));
      var r := ReduceDebt(p, borrower, UserDebt(p, borrower), repaid, burn);
      if r.Success? {
        BurnEffect(r.value.debts, borrower, r.value.debts.BalanceOf(borrower));
      }
    }
  }


  /** Why a repayment reverts. */
  ghost predicate RepayRejects(p: Storage, sender: Address, amount: nat, e: Error)
    requires p.borrowIndex > 0
  {
    var debt := UserDebt(p, sender);
    var repaid := Min(amount, debt);
    var left := DebtLeft(p, sender, repaid);
    || (e == NoDebt && p.debts.BalanceOf(sender) == 0)
    || (e == ScaledAmountTooSmall && BelowOneUnit(p, sender, amount))
    || (e.RemainingDebtBelowMinimum? && e.remainingDebt == left && 0 < left < 1_000_000)
    || (e == Overflow && (|| debt > MAX_UINT256
                          || p.available + repaid > MAX_UINT256
                          || p.reserve + repaid - (debt - left) > MAX_UINT256))
  }

  /** A repayment succeeds exactly when nothing speaks against it. */
  lemma RepayOutcome(p: Storage, sender: Address, amount: nat)
    requires Sound(p) && amount > 0
    ensures match RepayUsdc(p, sender, amount)
            case Success(_) => forall e :: !RepayRejects(p, sender, amount, e)
            case Failure(e) => RepayRejects(p, sender, amount, e)
  {
    hide Floor, Ceil, ScaledDebtBurn, DebtLeft, BurntUnits, ReduceDebt;
    var debt := UserDebt(p, sender);
    var repaid := Min(amount, debt);
    ZeroProduct(p.borrowIndex, RAY);
    if p.debts.BalanceOf(sender) > 0 && debt <= MAX_UINT256 {
      BurnOutcome(p, sender, repaid);
      if !BelowOneUnit(p, sender, repaid) {
        ReduceOutcome(p, sender, repaid);
      }
    }
  }

  // Supplying and withdrawing USDC ----------------------------------------------------------------

  /** Scaled units are worth at least as many base units. */
  lemma ScaledWithin(scaled: nat, index: nat)
    requires index >= RAY
    ensures scaled <= Floor(scaled, index, RAY)
  {
    hide Floor;
    MulMono(RAY, index, scaled);
    FloorGreatest(scaled, index, RAY, scaled);
  }

  ghost predicate SupplyRejects(p: Storage, amount: nat, e: Error)
    requires p.liquidityIndex > 0
  {
    var claims := Floor(p.deposits.total + Floor(amount, RAY, p.liquidityIndex), p.liquidityIndex, RAY);
    || (e == ScaledAmountTooSmall && amount * RAY < p.liquidityIndex)
    || (e == Overflow && (|| claims > MAX_UINT256
                          || p.available + amount > MAX_UINT256
                          || p.reserve + amount - (claims - TotalSupply(p)) > MAX_UINT256))
  }

  lemma SupplyOutcome(p: Storage, sender: Address, amount: nat)
    requires Sound(p) && amount > 0
    ensures match SupplyUsdc(p, sender, amount)
            case Success(_) => forall e :: !SupplyRejects(p, amount, e)
            case Failure(e) => SupplyRejects(p, amount, e)
  {
    hide Floor, Ceil;
    SupplyGrowth(p, amount);
  }

  lemma SupplyGrowth(p: Storage, amount: nat)
    requires Books(p)
    ensures var minted := Floor(amount, RAY, p.liquidityIndex);
            var claims := Floor(p.deposits.total + minted, p.liquidityIndex, RAY);
            && minted <= amount && (minted == 0 <==> amount * RAY < p.liquidityIndex)
            && p.deposits.total + minted <= claims
            && 0 <= claims - Floor(p.deposits.total, p.liquidityIndex, RAY) <= amount
  {
    hide Floor, Ceil;
    var minted := Floor(amount, RAY, p.liquidityIndex);
    FloorWithin(amount, p.liquidityIndex);
    ScaledWithin(p.deposits.total + minted, p.liquidityIndex);
    SplitSum(p.deposits.total, minted, p.liquidityIndex, RAY);
    RoundTrip(amount, p.liquidityIndex);
  }

  /** The scaled claim a withdrawal burns. */
  ghost function BurntClaim(p: Storage, sender: Address, amount: nat): nat
    requires p.liquidityIndex > 0
  {
    if amount == Floor(p.deposits.BalanceOf(sender), p.liquidityIndex, RAY) then p.deposits.BalanceOf(sender)
    else Ceil(amount, RAY, p.liquidityIndex)
  }

  ghost predicate WithdrawRejects(p: Storage, sender: Address, amount: nat, e: Error)
    requires p.liquidityIndex > 0
  {
    var supplied := Floor(p.deposits.BalanceOf(sender), p.liquidityIndex, RAY);
    var left := p.deposits.total - BurntClaim(p, sender, amount);
    || (e == InsufficientSupply(supplied, amount) && amount > supplied)
    || (e == InsufficientLiquidity(p.available, amount) && amount > p.available)
    || (e == Overflow && TotalSupply(p) > MAX_UINT256)
    || (e == Overflow && amount <= supplied && left >= 0
        && p.reserve + (TotalSupply(p) - Floor(left, p.liquidityIndex, RAY)) - amount > MAX_UINT256)
  }

  lemma WithdrawOutcome(p: Storage, sender: Address, amount: nat)
    requires Sound(p) && amount > 0
    ensures match WithdrawUsdc(p, sender, amount)
            case Success(_) => forall e :: !WithdrawRejects(p, sender, amount, e)
            case Failure(e) => WithdrawRejects(p, sender, amount, e)
  {
    hide Floor, Ceil, TotalSupply;
    var balance, index := p.deposits.BalanceOf(sender), p.liquidityIndex;
    var supplied, burnt := Floor(balance, index, RAY), BurntClaim(p, sender, amount);
    BalancesWithinTotal(p.deposits, sender, sender);
    ClaimsWithinSupply(p, sender);
    if amount <= supplied {
      BurntClaimFits(p, sender, amount);
      BurnEffect(p.deposits, sender, burnt);
      ScaledWithin(p.deposits.total, index);
    }
    TotalSupplyIs(p);
  }

  lemma TotalSupplyIs(p: Storage)
    ensures TotalSupply(p) == Floor(p.deposits.total, p.liquidityIndex, RAY)
  {
  }

  lemma ClaimsWithinSupply(p: Storage, sender: Address)
    requires p.deposits.BalanceOf(sender) <= p.deposits.total
    ensures Floor(p.deposits.BalanceOf(sender), p.liquidityIndex, RAY) <= TotalSupply(p)
  {
    hide Floor;
    FloorMono(p.deposits.BalanceOf(sender), p.liquidityIndex, p.deposits.total, p.liquidityIndex, RAY);
  }

  /** A withdrawal within the claim burns some of the balance, worth at least the amount. */
  lemma BurntClaimFits(p: Storage, sender: Address, amount: nat)
    requires Books(p) && 0 < amount <= Floor(p.deposits.BalanceOf(sender), p.liquidityIndex, RAY)
    ensures var burnt := BurntClaim(p, sender, amount);
            && 0 < burnt <= p.deposits.BalanceOf(sender) <= p.deposits.total
            && amount <= TotalSupply(p) - Floor(p.deposits.total - burnt, p.liquidityIndex, RAY)
  {
    hide Floor, Ceil;
    var balance, index := p.deposits.BalanceOf(sender), p.liquidityIndex;
    BalancesWithinTotal(p.deposits, sender, sender);
    FloorBounds(balance, index, RAY);
    ZeroProduct(index, RAY);
    if amount < Floor(balance, index, RAY) {
      MulMono(amount, Floor(balance, index, RAY), RAY);
      CeilLeast(amount, RAY, index, balance);
      CeilPositive(amount, RAY, index);
    }
    var burnt := BurntClaim(p, sender, amount);
    SplitSum(p.deposits.total - burnt, burnt, index, RAY);
    RoundTrip(amount, index);
  }

  // Borrowing and withdrawing collateral -----------------------------------------------------------

  /** The value of a position's collateral, of its debt, and its health, with every rounding resolved. */
  ghost function ValueOf(prices: Prices, collateral: nat): nat
    requires prices.weth.Success?
  {
    Floor(collateral, prices.weth.value, 100_000_000)
  }

  ghost function OwedValue(prices: Prices, debt: nat): nat
    requires prices.usdc.Success?
  {
    debt * prices.usdc.value * 10_000
  }

  ghost function HealthOf(value: nat, owed: nat): nat
    requires owed > 0
  {
    Floor(Floor(value, 8_000, 10_000), WAD, owed)
  }

  ghost predicate PricesKnown(prices: Prices) {
    prices.weth.Success? && prices.usdc.Success?
  }

  /** Valuing a position overflows 256 bits. */
  ghost predicate ValueOverflows(prices: Prices, collateral: nat, debt: nat) {
    || (prices.weth.Success? && ValueOf(prices, collateral) > MAX_UINT256)
    || (prices.usdc.Success? && OwedValue(prices, debt) > MAX_UINT256)
    || (PricesKnown(prices) && OwedValue(prices, debt) > 0
        && HealthOf(ValueOf(prices, collateral), OwedValue(prices, debt)) > MAX_UINT256)
  }

  /** The health of a position with debt, or the error of a price or an overflow. */
  lemma HealthOutcome(prices: Prices, collateral: nat, debt: nat)
    requires prices.Positive() && debt > 0
    ensures match HealthFactor(prices, collateral, debt)
            case Success(health) =>
              && PricesKnown(prices) && !ValueOverflows(prices, collateral, debt) && OwedValue(prices, debt) > 0
              && health == HealthOf(ValueOf(prices, collateral), OwedValue(prices, debt))
            case Failure(e) =>
              || prices.weth == Failure(e) || prices.usdc == Failure(e)
              || (e == Overflow && ValueOverflows(prices, collateral, debt))
  {
    hide Floor;
    if prices.usdc.Success? {
      assert debt * prices.usdc.value > 0;
    }
    if prices.weth.Success? {
      ShareWithin(ValueOf(prices, collateral), 8_000);
    }
  }

  /** A share in basis points is at most the whole. */
  lemma ShareWithin(amount: nat, bps: nat)
    requires bps <= BPS
    ensures Floor(amount, bps, BPS) <= amount
  {
    hide Floor;
    FloorBounds(amount, bps, BPS);
    MulMono(bps, BPS, amount);
    MulCancel(Floor(amount, bps, BPS), amount, BPS);
  }

  /** A borrower's debt after borrowing. */
  ghost function DebtAfter(p: Storage, sender: Address, amount: nat): nat
    requires p.borrowIndex > 0
  {
    Ceil(p.debts.BalanceOf(sender) + Ceil(amount, RAY, p.borrowIndex), p.borrowIndex, RAY)
  }

  ghost predicate BorrowRejects(p: Storage, prices: Prices, sender: Address, amount: nat, e: Error)
    requires p.borrowIndex > 0
  {
    var collateral, debt := p.collateral.BalanceOf(sender), DebtAfter(p, sender, amount);
    || (e == InsufficientLiquidity(p.available, amount) && amount > p.available)
    || prices.weth == Failure(e) || prices.usdc == Failure(e)
    || (e.BorrowCapacityExceeded? && PricesKnown(prices)
        && e.debtValueWad == OwedValue(prices, debt)
        && e.maxBorrowValueWad == Floor(ValueOf(prices, collateral), 7_500, 10_000)
        && e.debtValueWad * 10_000 > ValueOf(prices, collateral) * 7_500)
    || (e == Overflow && (|| debt > MAX_UINT256
                          || p.debts.total + Ceil(amount, RAY, p.borrowIndex) > MAX_UINT256
                          || ValueOverflows(prices, collateral, debt)
                          || p.reserve + (debt - UserDebt(p, sender)) - amount > MAX_UINT256))
  }

  /** A borrow succeeds exactly when nothing speaks against it; what is within the 75% limit is always healthy. */
  lemma BorrowOutcome(p: Storage, prices: Prices, sender: Address, amount: nat)
    requires Sound(p) && prices.Positive() && amount > 0
    ensures match BorrowUsdc(p, prices, sender, amount)
            case Success(_) => forall e :: !BorrowRejects(p, prices, sender, amount, e)
            case Failure(e) => BorrowRejects(p, prices, sender, amount, e)
  {
    hide Floor, Ceil, HealthFactor, CollateralValue, DebtValue, ValueOverflows, HealthOf;
    var balance, minted := p.debts.BalanceOf(sender), Ceil(amount, RAY, p.borrowIndex);
    var collateral, debt := p.collateral.BalanceOf(sender), DebtAfter(p, sender, amount);
    CeilPositive(amount, RAY, p.borrowIndex);
    CeilWithin(balance + minted, p.borrowIndex);
    CeilMono(balance, p.borrowIndex, balance + minted, p.borrowIndex, RAY);
    BorrowGrowsDebt(p, sender, amount);
    HealthOutcome(prices, collateral, debt);
    ValuesInClosedForm(prices, collateral, debt);
    if PricesKnown(prices) {
      CapacityMeaning(ValueOf(prices, collateral), OwedValue(prices, debt));
      CapacityIsHealthy(prices, collateral, debt);
    }
  }

  lemma CeilWithin(scaled: nat, index: nat)
    requires index >= RAY
    ensures scaled <= Ceil(scaled, index, RAY)
  {
    hide Floor, Ceil;
    ScaledWithin(scaled, index);
    CeilBounds(scaled, index, RAY);
  }

  lemma BorrowGrowsDebt(p: Storage, sender: Address, amount: nat)
    requires Books(p)
    ensures UserDebt(p, sender) + amount <= DebtAfter(p, sender, amount)
  {
    hide Floor, Ceil;
    var minted := Ceil(amount, RAY, p.borrowIndex);
    SplitSum(p.debts.BalanceOf(sender), minted, p.borrowIndex, RAY);
    RoundTrip(amount, p.borrowIndex);
  }

  /** The valuations and the borrow limit, or why they fail. */
  lemma ValuesInClosedForm(prices: Prices, collateral: nat, debt: nat)
    requires prices.Positive() && debt > 0
    ensures match MaxBorrow(prices, collateral)
            case Success(limit) => prices.weth.Success? && limit == Floor(ValueOf(prices, collateral), 7_500, 10_000)
            case Failure(e) => prices.weth == Failure(e) || (e == Overflow && ValueOverflows(prices, collateral, debt))
    ensures match DebtValue(prices, debt)
            case Success(value) => prices.usdc.Success? && value == OwedValue(prices, debt)
            case Failure(e) => prices.usdc == Failure(e) || (e == Overflow && ValueOverflows(prices, collateral, debt))
    ensures match CollateralValue(prices, collateral)
            case Success(value) => prices.weth.Success? && value == ValueOf(prices, collateral)
            case Failure(e) => prices.weth == Failure(e) || (e == Overflow && ValueOverflows(prices, collateral, debt))
  {
    hide Floor;
    if prices.weth.Success? {
      ShareWithin(ValueOf(prices, collateral), 7_500);
    }
  }

  lemma CapacityIsHealthy(prices: Prices, collateral: nat, debt: nat)
    requires PricesKnown(prices)
    ensures var value, owed := ValueOf(prices, collateral), OwedValue(prices, debt);
            owed > 0 ==> (HealthOf(value, owed) >= WAD <==> owed * 10_000 <= value * 8_000)
  {
    hide Floor;
    if OwedValue(prices, debt) > 0 {
      HealthMeaning(ValueOf(prices, collateral), OwedValue(prices, debt));
    }
  }

  /** After a borrow the borrower owes at most 75% of what the collateral is worth, and is healthy. */
  lemma BorrowStaysWithinCapacity(p: Storage, prices: Prices, sender: Address, amount: nat)
    requires Sound(p) && prices.Positive() && amount > 0 && BorrowUsdc(p, prices, sender, amount).Success?
    ensures var q := BorrowUsdc(p, prices, sender, amount).value;
            var collateral, debt := q.collateral.BalanceOf(sender), UserDebt(q, sender);
            && PricesKnown(prices) && debt > 0
            && debt * prices.usdc.value * 10_000 * 100_000_000 * 100 <= collateral * prices.weth.value * 75
            && HealthFactor(prices, collateral, debt).Success?
            && HealthFactor(prices, collateral, debt).value >= WAD
  {
    hide Floor, Ceil, HealthFactor, ValueOverflows, HealthOf, BorrowUsdc;
    BorrowOutcome(p, prices, sender, amount);
    BorrowEffect(p, prices, sender, amount);
    MintEffect(p.debts, sender, Ceil(amount, RAY, p.borrowIndex));
    var q := BorrowUsdc(p, prices, sender, amount).value;
    var collateral, debt := q.collateral.BalanceOf(sender), DebtAfter(p, sender, amount);
    BorrowGrowsDebt(p, sender, amount);
    HealthOutcome(prices, collateral, debt);
    assert forall e :: !BorrowRejects(p, prices, sender, amount, e);
    NotRejected(p, prices, sender, amount);
    CapacityIsHealthy(prices, collateral, debt);
    FloorBounds(collateral, prices.weth.value, 100_000_000);
  }

  lemma NotRejected(p: Storage, prices: Prices, sender: Address, amount: nat)
    requires p.borrowIndex > 0 && forall e :: !BorrowRejects(p, prices, sender, amount, e)
    ensures PricesKnown(prices)
    ensures OwedValue(prices, DebtAfter(p, sender, amount)) * 10_000
            <= ValueOf(prices, p.collateral.BalanceOf(sender)) * 7_500
    ensures !ValueOverflows(prices, p.collateral.BalanceOf(sender), DebtAfter(p, sender, amount))
  {
    hide Floor, Ceil, ValueOverflows, OwedValue, ValueOf, DebtAfter;
    assert prices.weth.Failure? ==> BorrowRejects(p, prices, sender, amount, prices.weth.error);
    assert prices.usdc.Failure? ==> BorrowRejects(p, prices, sender, amount, prices.usdc.error);
    var value := ValueOf(prices, p.collateral.BalanceOf(sender));
    var owed := OwedValue(prices, DebtAfter(p, sender, amount));
    assert !BorrowRejects(p, prices, sender, amount, BorrowCapacityExceeded(owed, Floor(value, 7_500, 10_000)));
    assert !BorrowRejects(p, prices, sender, amount, Overflow);
  }

  ghost predicate WithdrawWethRejects(p: Storage, prices: Prices, sender: Address, amount: nat, e: Error)
    requires p.borrowIndex > 0
  {
    var balance, debt := p.collateral.BalanceOf(sender), UserDebt(p, sender);
    var left := balance - amount;
    || (e == InsufficientSupply(balance, amount) && left < 0)
    || prices.weth == Failure(e)
    || (debt > 0 && prices.usdc == Failure(e))
    || (e == Overflow && debt > MAX_UINT256)
    || (left >= 0 &&
        (|| (e == Overflow && prices.weth.Success? && ValueOf(prices, left) > MAX_UINT256)
         || (e == Overflow && debt > 0 && ValueOverflows(prices, left, debt))
         || (e.UnhealthyPosition? && PricesKnown(prices) && OwedValue(prices, debt) > 0
             && OwedValue(prices, debt) * 10_000 > ValueOf(prices, left) * 8_000
             && e.healthFactor == HealthOf(ValueOf(prices, left), OwedValue(prices, debt)))))
  }

  /** Collateral can be withdrawn exactly when what is left keeps the debt healthy. */
  lemma WithdrawWethOutcome(p: Storage, prices: Prices, sender: Address, amount: nat)
    requires Sound(p) && prices.Positive()
    ensures match WithdrawWeth(p, prices, sender, amount)
            case Success(_) => forall e :: !WithdrawWethRejects(p, prices, sender, amount, e)
            case Failure(e) => WithdrawWethRejects(p, prices, sender, amount, e)
  {
    hide Floor, Ceil, ValueOverflows, HealthOf;
    var balance, debt := p.collateral.BalanceOf(sender), UserDebt(p, sender);
    BurnEffect(p.collateral, sender, amount);
    if amount <= balance && debt > 0 {
      hide HealthFactor;
      HealthOutcome(prices, balance - amount, debt);
      if PricesKnown(prices) {
        CapacityIsHealthy(prices, balance - amount, debt);
      }
    }
  }

  /** After withdrawing collateral a borrower owes at most 80% of what is left, and is healthy. */
  lemma WithdrawWethStaysHealthy(p: Storage, prices: Prices, sender: Address, amount: nat)
    requires Sound(p) && prices.Positive() && WithdrawWeth(p, prices, sender, amount).Success?
    ensures var q := WithdrawWeth(p, prices, sender, amount).value;
            var collateral, debt := q.collateral.BalanceOf(sender), UserDebt(q, sender);
            debt > 0 ==>
              && PricesKnown(prices)
              && debt * prices.usdc.value * 10_000 * 100_000_000 * 100 <= collateral * prices.weth.value * 80
              && HealthFactor(prices, collateral, debt).Success?
              && HealthFactor(prices, collateral, debt).value >= WAD
  {
    hide Floor, Ceil, ValueOverflows, HealthOf, HealthFactor, CollateralValue;
    CollateralEffect(p, prices, sender, amount);
    var q := WithdrawWeth(p, prices, sender, amount).value;
    var collateral, debt := q.collateral.BalanceOf(sender), UserDebt(q, sender);
    if debt > 0 {
      HealthOutcome(prices, collateral, debt);
      CapacityIsHealthy(prices, collateral, debt);
      FloorBounds(collateral, prices.weth.value, 100_000_000);
    }
  }

  // Whole transactions ------------------------------------------------------------------------------

  lemma AccruedSound(p: Storage, now: nat)
    requires Sound(p) && AccrueInterest(p, now).Success?
    ensures Sound(Accrued(p, now))
  {
    hide InterestSplit, Floor, Ceil;
    AccruedBooks(p, now);
  }

  ghost predicate SeizureRejects(p: Storage, borrower: Address, repaid: nat, seized: nat, e: Error)
    requires p.borrowIndex > 0
  {
    var debt, collateral := UserDebt(p, borrower), p.collateral.BalanceOf(borrower);
    || (e == Overflow && debt > MAX_UINT256)
    || (e == LiquidationExceedsDebt(debt, repaid) && repaid > debt)
    || (e == LiquidationExceedsCollateral(collateral, seized) && seized > collateral)
    || (e == ScaledAmountTooSmall && BelowOneUnit(p, borrower, repaid))
    || (e == Overflow && !HasRoom(p, borrower, repaid, seized))
  }

  lemma SeizureOutcome(p: Storage, borrower: Address, repaid: nat, seized: nat)
    requires Sound(p)
    ensures match SeizeCollateral(p, borrower, repaid, seized)
            case Success(_) => forall e :: !SeizureRejects(p, borrower, repaid, seized, e)
            case Failure(e) => SeizureRejects(p, borrower, repaid, seized, e)
  {
    hide Floor, Ceil, HasRoom, BelowOneUnit, ScaledDebtBurn, ReduceDebt;
    if repaid <= UserDebt(p, borrower) <= MAX_UINT256 && seized <= p.collateral.BalanceOf(borrower) {
      hide SeizeCollateral;
      SeizeOutcome(p, borrower, repaid, seized);
    }
  }

  /** Why the oracle refuses a call of its administrators. */
  predicate OracleRejects(oracle: Oracle, tx: Tx, e: Error)
    requires tx.call.RegisterAssetCall? || tx.call.SetPriceCall? || tx.call.PublishPriceCall?
  {
    match tx.call
    case RegisterAssetCall(asset, maxPriceAge) =>
      || (e == InvalidAsset && asset == 0)
      || (e == InvalidMaxPriceAge && maxPriceAge == 0)
      || (e == AssetAlreadyRegistered && asset in oracle)
    case SetPriceCall(asset, price) => (e == UnsupportedAsset && asset !in oracle) || (e == InvalidPrice && price == 0)
    case PublishPriceCall(asset, price, reportedAt, roundId) =>
      || (e == UnsupportedAsset && asset !in oracle)
      || (e == InvalidPrice && price == 0)
      || (e == InvalidReportTimestamp && reportedAt > tx.now)
      || (asset in oracle && reportedAt <= tx.now &&
          (|| (e == StaleReport && tx.now > reportedAt + oracle[asset].maxPriceAge)
           || (e == InvalidRound(oracle[asset].latestRoundId, roundId) && roundId <= oracle[asset].latestRoundId)))
  }

  /** Why a call reverts with an error, read off the storage accrued to the block time. */
  ghost predicate Rejects(m: Market, c: Chain, tx: Tx, e: Error)
    requires Books(c.pool) && !tx.call.LiquidateCall?
  {
    if tx.call.RegisterAssetCall? || tx.call.SetPriceCall? || tx.call.PublishPriceCall? then
      OracleRejects(c.oracle, tx, e)
    else if AccrueInterest(c.pool, tx.now).Failure? then
      e == Overflow || BadArguments(m, tx, e)
    else
      AccruedBooks(c.pool, tx.now);
      BadArguments(m, tx, e) || CallRejects(m, Accrued(c.pool, tx.now), PricesAt(m, c.oracle, tx.now), tx.call, e)
  }

  /** What the pool checks before it looks at its storage. */
  predicate BadArguments(m: Market, tx: Tx, e: Error) {
    match tx.call
    case SupplyCall(_, asset, amount) =>
      (e == ZeroAmount && amount == 0) || (e == UnsupportedAsset && asset != m.usdc && asset != m.weth)
    case WithdrawCall(_, asset, amount) =>
      (e == ZeroAmount && amount == 0) || (e == UnsupportedAsset && asset != m.usdc && asset != m.weth)
    case BorrowCall(_, asset, amount) =>
      || (e == AssetNotBorrowable && asset == m.weth)
      || (e == UnsupportedAsset && asset != m.usdc && asset != m.weth)
      || (e == ZeroAmount && amount == 0)
      || (e == BorrowBelowMinimum(amount) && amount < 1_000_000)
    case RepayCall(_, asset, amount) =>
      || (e == AssetNotRepayable && asset == m.weth)
      || (e == UnsupportedAsset && asset != m.usdc && asset != m.weth)
      || (e == ZeroAmount && amount == 0)
    case ExecuteLiquidationCall(borrower, liquidator, repaid, seized) =>
      (e == InvalidAddress && (borrower == 0 || liquidator == 0)) || (e == ZeroAmount && (repaid == 0 || seized == 0))
    case _ => false
  }

  ghost predicate CallRejects(m: Market, p: Storage, prices: Prices, call: Call, e: Error)
    requires Books(p)
  {
    match call
    case SupplyCall(sender, asset, amount) =>
      if asset == m.usdc then SupplyRejects(p, amount, e)
      else e == Overflow && p.collateral.total + amount > MAX_UINT256
    case WithdrawCall(sender, asset, amount) =>
      if asset == m.usdc then WithdrawRejects(p, sender, amount, e)
      else WithdrawWethRejects(p, prices, sender, amount, e)
    case BorrowCall(sender, _, amount) => BorrowRejects(p, prices, sender, amount, e)
    case RepayCall(sender, _, amount) => RepayRejects(p, sender, amount, e)
    case ExecuteLiquidationCall(borrower, _, repaid, seized) => SeizureRejects(p, borrower, repaid, seized, e)
    case _ => false
  }

  lemma SupplyWethOutcome(p: Storage, sender: Address, amount: nat)
    ensures match SupplyWeth(p, sender, amount)
            case Success(_) => p.collateral.total + amount <= MAX_UINT256
            case Failure(e) => e == Overflow && p.collateral.total + amount > MAX_UINT256
  {
  }

  lemma OracleOutcome(m: Market, c: Chain, tx: Tx)
    requires tx.call.RegisterAssetCall? || tx.call.SetPriceCall? || tx.call.PublishPriceCall?
    ensures match Transact(m, c, tx)
            case Success(_) => forall e :: !OracleRejects(c.oracle, tx, e)
            case Failure(e) => OracleRejects(c.oracle, tx, e)
  {
  }

  /** Every call but the manager's succeeds exactly when nothing speaks against it, and reverts with an error that
      does. */
  lemma TransactionOutcome(m: Market, c: Chain, tx: Tx)
    requires Sound(c.pool) && c.pool.lastUpdate <= tx.now && !tx.call.LiquidateCall?
    ensures match Transact(m, c, tx)
            case Success(_) => forall e :: !Rejects(m, c, tx, e)
            case Failure(e) => Rejects(m, c, tx, e)
  {
    hide AccrueInterest, SupplyUsdc, SupplyWeth, WithdrawUsdc, WithdrawWeth, BorrowUsdc, RepayUsdc, SeizeCollateral,
         SupplyRejects, WithdrawRejects, WithdrawWethRejects, BorrowRejects, RepayRejects, SeizureRejects, PricesAt;
    if tx.call.RegisterAssetCall? || tx.call.SetPriceCall? || tx.call.PublishPriceCall? {
      hide Transact, OracleRejects;
      OracleOutcome(m, c, tx);
    } else {
      AccrualIsSound(c.pool, tx.now);
      if AccrueInterest(c.pool, tx.now).Success? {
        AccruedSound(c.pool, tx.now);
        var p, prices := Accrued(c.pool, tx.now), PricesAt(m, c.oracle, tx.now);
        match tx.call {
          case SupplyCall(sender, asset, amount) =>
            SupplyWethOutcome(p, sender, amount);
            if amount > 0 {
              SupplyOutcome(p, sender, amount);
            }
          case WithdrawCall(sender, asset, amount) =>
            WithdrawWethOutcome(p, prices, sender, amount);
            if amount > 0 {
              WithdrawOutcome(p, sender, amount);
            }
          case BorrowCall(sender, _, amount) =>
            if amount > 0 {
              BorrowOutcome(p, prices, sender, amount);
            }
          case RepayCall(sender, _, amount) =>
            if amount > 0 {
              RepayOutcome(p, sender, amount);
            }
          case ExecuteLiquidationCall(borrower, _, repaid, seized) => SeizureOutcome(p, borrower, repaid, seized);
          case _ =>
        }
      }
    }
  }

  // Every run --------------------------------------------------------------------------------------

  lemma ClaimReserveFits(p: Storage, sender: Address, amount: nat)
    requires Sound(p)
    ensures SupplyUsdc(p, sender, amount).Success? ==> SupplyUsdc(p, sender, amount).value.reserve <= MAX_UINT256
    ensures WithdrawUsdc(p, sender, amount).Success? ==> WithdrawUsdc(p, sender, amount).value.reserve <= MAX_UINT256
  {
    hide Floor, Ceil, MulDivUp, MulDivDown;
  }

  lemma BorrowReserveFits(p: Storage, prices: Prices, sender: Address, amount: nat)
    requires Sound(p)
    ensures BorrowUsdc(p, prices, sender, amount).Success? ==>
              BorrowUsdc(p, prices, sender, amount).value.reserve <= MAX_UINT256
  {
    hide Floor, Ceil, MulDivUp, MulDivDown, MaxBorrow, DebtValue, HealthFactor;
  }

  lemma DebtReserveFits(p: Storage, user: Address, amount: nat, seized: nat)
    requires Sound(p)
    ensures RepayUsdc(p, user, amount).Success? ==> RepayUsdc(p, user, amount).value.after.reserve <= MAX_UINT256
    ensures SeizeCollateral(p, user, amount, seized).Success? ==>
              SeizeCollateral(p, user, amount, seized).value.after.reserve <= MAX_UINT256
  {
    hide Floor, Ceil, MulDivUp, MulDivDown, ScaledDebtBurn;
  }

  lemma SoundKept(m: Market, c: Chain, tx: Tx)
    requires Sound(c.pool)
    ensures Sound(Next(m, c, tx).after.pool)
  {
    hide AccrueInterest, SupplyUsdc, WithdrawUsdc, WithdrawWeth, BorrowUsdc, RepayUsdc, SeizeCollateral,
         CalculateLiquidation, ValidatedPosition, Gap;
    GapMovesByAtMostOne(m, c, tx);
    if Transact(m, c, tx).Success?
       && !(tx.call.RegisterAssetCall? || tx.call.SetPriceCall? || tx.call.PublishPriceCall?)
    {
      AccruedSound(c.pool, tx.now);
      var p, prices := Accrued(c.pool, tx.now), PricesAt(m, c.oracle, tx.now);
      match tx.call {
        case AccrueCall =>
        case SupplyCall(sender, _, amount) => ClaimReserveFits(p, sender, amount);
        case BorrowCall(sender, _, amount) => BorrowReserveFits(p, prices, sender, amount);
        case RepayCall(sender, _, amount) => DebtReserveFits(p, sender, amount, 0);
        case WithdrawCall(sender, _, amount) =>
          ClaimReserveFits(p, sender, amount);
          CollateralEffect(p, prices, sender, amount);
        case LiquidateCall(_, borrower, _, _, requestedRepay, _) =>
          var position := ValidatedPosition(c.pool, prices, tx.now, borrower).value;
          var sizing := CalculateLiquidation(prices, position.debt, position.collateral, requestedRepay).value;
          DebtReserveFits(p, borrower, sizing.repaidAmount, sizing.collateralSeized);
        case ExecuteLiquidationCall(borrower, _, repaid, seized) => DebtReserveFits(p, borrower, repaid, seized);
      }
    }
  }

  lemma {:induction false} SoundAlways(m: Market, deployedAt: nat, txs: seq<Tx>)
    ensures Sound(Run(m, Genesis(deployedAt), txs).after.pool)
  {
    if txs == [] {
      BooksAlways(m, deployedAt, txs);
    } else {
      hide Next, Sound;
      SoundAlways(m, deployedAt, txs[..|txs| - 1]);
      SoundKept(m, Run(m, Genesis(deployedAt), txs[..|txs| - 1]).after, txs[|txs| - 1]);
    }
  }

  /** In every run, whoever borrows, or withdraws collateral while in debt, is healthy after the call: the debt is worth
      at most 75% of the collateral after a borrow, and at most 80% after a withdrawal. */
  lemma BorrowersStayHealthy(m: Market, deployedAt: nat, txs: seq<Tx>, tx: Tx)
    requires m.weth != m.usdc
    requires tx.call.BorrowCall? || (tx.call.WithdrawCall? && tx.call.asset == m.weth)
    requires Transact(m, Run(m, Genesis(deployedAt), txs).after, tx).Success?
    ensures var c := Run(m, Genesis(deployedAt), txs).after;
            var q, prices := Next(m, c, tx).after.pool, PricesAt(m, c.oracle, tx.now);
            var collateral, debt := q.collateral.BalanceOf(tx.call.sender), UserDebt(q, tx.call.sender);
            var percent := if tx.call.BorrowCall? then 75 else 80;
            && (tx.call.BorrowCall? ==> debt > 0)
            && (debt > 0 ==>
                  && PricesKnown(prices)
                  && debt * prices.usdc.value * 10_000 * 100_000_000 * 100 <= collateral * prices.weth.value * percent
                  && HealthFactor(prices, collateral, debt).Success?
                  && HealthFactor(prices, collateral, debt).value >= WAD)
  {
    hide Run, AccrueInterest, BorrowUsdc, WithdrawWeth, WithdrawUsdc, HealthFactor, Ceil, Floor;
    SoundAlways(m, deployedAt, txs);
    var c := Run(m, Genesis(deployedAt), txs).after;
    AccruedSound(c.pool, tx.now);
    var p, prices := Accrued(c.pool, tx.now), PricesAt(m, c.oracle, tx.now);
    if tx.call.BorrowCall? {
      BorrowStaysWithinCapacity(p, prices, tx.call.sender, tx.call.amount);
    } else {
      WithdrawWethStaysHealthy(p, prices, tx.call.sender, tx.call.amount);
    }
  }

  // Oracle rounds ----------------------------------------------------------------------------------

  function LatestRound(oracle: Oracle, asset: Address): nat {
    if asset in oracle then oracle[asset].latestRoundId else 0
  }

  /** The transaction publishes a round of the asset. */
  predicate PublishesRound(m: Market, c: Chain, tx: Tx, asset: Address) {
    tx.call.PublishPriceCall? && tx.call.asset == asset && Transact(m, c, tx).Success?
  }

  lemma RoundMoves(m: Market, c: Chain, tx: Tx, asset: Address)
    ensures var before, after := LatestRound(c.oracle, asset), LatestRound(Next(m, c, tx).after.oracle, asset);
            && before <= after
            && if PublishesRound(m, c, tx, asset) then before < after == tx.call.roundId else after == before
  {
    hide PoolCall;
  }

  /** In every run, an asset's published rounds strictly increase. */
  lemma {:induction false} RoundsIncrease(m: Market, deployedAt: nat, txs: seq<Tx>, asset: Address, i: nat, j: nat)
    requires i < j < |txs|
    requires PublishesRound(m, Run(m, Genesis(deployedAt), txs[..i]).after, txs[i], asset)
    requires PublishesRound(m, Run(m, Genesis(deployedAt), txs[..j]).after, txs[j], asset)
    ensures txs[i].call.roundId < txs[j].call.roundId
  {
    hide Run, Next, PublishesRound, LatestRound;
    var c := Genesis(deployedAt);
    RoundMoves(m, Run(m, c, txs[..i]).after, txs[i], asset);
    RunMore(m, c, txs, i);
    RoundsNeverFall(m, c, txs, asset, i + 1, j);
    RoundMoves(m, Run(m, c, txs[..j]).after, txs[j], asset);
    Publication(m, Run(m, c, txs[..i]).after, txs[i], asset);
    Publication(m, Run(m, c, txs[..j]).after, txs[j], asset);
  }

  lemma Publication(m: Market, c: Chain, tx: Tx, asset: Address)
    ensures PublishesRound(m, c, tx, asset) ==> tx.call.PublishPriceCall?
  {
  }

  lemma RunMore(m: Market, c: Chain, txs: seq<Tx>, n: nat)
    requires n < |txs|
    ensures Run(m, c, txs[..n + 1]).after == Next(m, Run(m, c, txs[..n]).after, txs[n]).after
  {
    hide Next;
    assert txs[..n + 1][..n] == txs[..n];
  }

  lemma {:induction false} RoundsNeverFall(m: Market, c: Chain, txs: seq<Tx>, asset: Address, i: nat, j: nat)
    requires i <= j <= |txs|
    ensures LatestRound(Run(m, c, txs[..i]).after.oracle, asset) <= LatestRound(Run(m, c, txs[..j]).after.oracle, asset)
    decreases j
  {
    hide Run, Next, PublishesRound, LatestRound;
    if i < j {
      RoundsNeverFall(m, c, txs, asset, i, j - 1);
      RunMore(m, c, txs, j - 1);
      RoundMoves(m, Run(m, c, txs[..j - 1]).after, txs[j - 1], asset);
    }
  }
}
