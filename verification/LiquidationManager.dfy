/** Liquidation sizing with its close-factor, dust and collateral caps (LiquidationManager.sol). */
module LiquidationManager {
  import opened Results
  import opened FixedPoint
  import opened Ledgers
  import opened RiskManager
  import opened Pool

  const CLOSE_FACTOR_BPS: nat := 5_000
  const LIQUIDATION_BONUS_BPS: nat := 500

  /** A borrower's performing debt projected to `now`, as the debt token reports it. */
  function UsdcDebt(p: Storage, now: nat, user: Address): Result<nat> {
    var next :- ProjectedIndices(p, now);
    MulDivUp(p.debts.BalanceOf(user), next.borrow, RAY)
  }

  datatype Position = Position(debt: nat, collateral: nat)

  function ValidatedPosition(p: Storage, prices: Prices, now: nat, borrower: Address): Result<Position> {
    var debt :- UsdcDebt(p, now, borrower);
    if debt == 0 then Failure(PositionHasNoDebt) else
    var collateral := p.collateral.BalanceOf(borrower);
    if collateral == 0 then Failure(PositionHasNoCollateral) else
    var health :- HealthFactor(prices, collateral, debt);
    if health >= WAD then Failure(PositionIsHealthy(health)) else Success(Position(debt, collateral))
  }

  /** The three caps on a repayment. */
  datatype Caps = Caps(closeFactorLimit: nat, collateralLimitedRepay: nat) {
    predicate CollateralLimited(requestedRepay: nat) {
      collateralLimitedRepay <= requestedRepay && collateralLimitedRepay <= closeFactorLimit
    }
  }

  function RepayCaps(prices: Prices, debt: nat, collateral: nat): Result<Caps> {
    var half :- MulDivDown(debt, CLOSE_FACTOR_BPS, BPS);
    var rest :- Sub(debt, half);
    var closeFactorLimit := if rest < MINIMUM_USDC_BORROW then debt else half;
    var value :- CollateralValue(prices, collateral);
    var limitedValue :- MulDivDown(value, BPS, BPS + LIQUIDATION_BONUS_BPS);
    var limitedRepay :- DebtAmountForValueDown(prices, limitedValue);
    Success(Caps(closeFactorLimit, limitedRepay))
  }

  /** The repayment after the caps and the dust rule. */
  function CappedRepay(caps: Caps, debt: nat, requestedRepay: nat): Result<nat> {
    var repay := Min(requestedRepay, Min(caps.closeFactorLimit, caps.collateralLimitedRepay));
    var remaining :- Sub(debt, repay);
    if !caps.CollateralLimited(requestedRepay) && remaining != 0 && remaining < MINIMUM_USDC_BORROW
    then Sub(debt, MINIMUM_USDC_BORROW)
    else Success(repay)
  }

  /** The WETH owed for a repayment, with the liquidator's bonus. */
  function SeizedForRepay(prices: Prices, repay: nat): Result<nat> {
    var value :- DebtValue(prices, repay);
    var valueWithBonus :- MulDivDown(value, BPS + LIQUIDATION_BONUS_BPS, BPS);
    CollateralAmountForValueDown(prices, valueWithBonus)
  }

  datatype Sizing = Sizing(repaidAmount: nat, collateralSeized: nat)

  function CalculateLiquidation(prices: Prices, debt: nat, collateral: nat, requestedRepay: nat): Result<Sizing> {
    var caps :- RepayCaps(prices, debt, collateral);
    var repay :- CappedRepay(caps, debt, requestedRepay);
    if repay == 0 then Failure(LiquidationAmountTooSmall) else
    var seized :- SeizedForRepay(prices, repay);
    if seized == 0 then Failure(LiquidationAmountTooSmall) else
    Success(Sizing(repay, if caps.CollateralLimited(requestedRepay) then collateral else seized))
  }

  function Liquidate(m: Market, p: Storage, prices: Prices, now: nat, sender: Address, borrower: Address,
                     debtAsset: Address, collateralAsset: Address, requestedRepay: nat, minCollateralOut: nat)
    : Result<Step>
  {
    if borrower == 0 then Failure(InvalidAddress) else
    if debtAsset != m.usdc then Failure(UnsupportedDebtAsset) else
    if collateralAsset != m.weth then Failure(UnsupportedCollateralAsset) else
    if requestedRepay == 0 then Failure(ZeroAmount) else
    var position :- ValidatedPosition(p, prices, now, borrower);
    var sizing :- CalculateLiquidation(prices, position.debt, position.collateral, requestedRepay);
    if sizing.collateralSeized < minCollateralOut then
      Failure(CollateralOutputBelowMinimum(sizing.collateralSeized, minCollateralOut)) else
    ExecuteLiquidation(m, p, now, borrower, sender, sizing.repaidAmount, sizing.collateralSeized)
  }

  // What the sizing guarantees -------------------------------------------------------------

  /** The collateral-limited repayment is worth at most what the collateral covers with the bonus on top. */
  lemma CollateralCoversCap(prices: Prices, debt: nat, collateral: nat)
    requires prices.Positive() && RepayCaps(prices, debt, collateral).Success?
    ensures var repay := RepayCaps(prices, debt, collateral).value.collateralLimitedRepay;
            repay * prices.usdc.value * 10_000 * (BPS + LIQUIDATION_BONUS_BPS)
              <= CollateralValue(prices, collateral).value * BPS
  {
    hide Floor;
    var value := CollateralValue(prices, collateral).value;
    var price := prices.usdc.value;
    FloorBounds(value, BPS, BPS + LIQUIDATION_BONUS_BPS);
    var limitedValue := Floor(value, BPS, BPS + LIQUIDATION_BONUS_BPS);
    FloorBounds(limitedValue, 1, price);
    var atPrecision := Floor(limitedValue, 1, price);
    FloorBounds(atPrecision, 1, BPS);
    var repay := Floor(atPrecision, 1, BPS);
    assert repay * 10_000 <= atPrecision;
    MulMono(repay * 10_000, atPrecision, price);
    assert repay * price * 10_000 == repay * 10_000 * price;
    assert repay * price * 10_000 <= limitedValue;
  }

  /** A repayment below the collateral cap seizes strictly less than the collateral. */
  lemma SeizedBelowCollateral(prices: Prices, debt: nat, collateral: nat, repay: nat)
    requires prices.Positive() && RepayCaps(prices, debt, collateral).Success?
    requires repay < RepayCaps(prices, debt, collateral).value.collateralLimitedRepay
    requires SeizedForRepay(prices, repay).Success?
    ensures SeizedForRepay(prices, repay).value < collateral
  {
    hide Floor, RepayCaps;
    var cap := RepayCaps(prices, debt, collateral).value.collateralLimitedRepay;
    var p, w := prices.usdc.value, prices.weth.value;
    assert CollateralValue(prices, collateral).Success? by { CapsReadTheCollateral(prices, debt, collateral); }
    var value := CollateralValue(prices, collateral).value;
    CollateralCoversCap(prices, debt, collateral);
    MulMono(repay + 1, cap, p);
    var debtValue := repay * p * 10_000;
    assert debtValue + 10_000 * p <= cap * p * 10_000;
    FloorBounds(debtValue, BPS + LIQUIDATION_BONUS_BPS, BPS);
    var bonusValue := Floor(debtValue, BPS + LIQUIDATION_BONUS_BPS, BPS);
    assert bonusValue < value;
    FloorBounds(collateral, w, ORACLE_PRICE_SCALE);
    FloorBounds(bonusValue, ORACLE_PRICE_SCALE, w);
    var seized := Floor(bonusValue, ORACLE_PRICE_SCALE, w);
    assert seized * w < collateral * w;
    if seized >= collateral {
      MulMono(collateral, seized, w);
    }
  }

  lemma CapsReadTheCollateral(prices: Prices, debt: nat, collateral: nat)
    requires RepayCaps(prices, debt, collateral).Success?
    ensures CollateralValue(prices, collateral).Success?
  {
  }

  /** Sizing always fits the position: the repayment is at most the debt, it leaves no dust unless the
      collateral is exhausted, and the collateral is seized in full exactly when it is the binding cap. */
  lemma SizingFitsPosition(prices: Prices, debt: nat, collateral: nat, requestedRepay: nat)
    requires prices.Positive() && CalculateLiquidation(prices, debt, collateral, requestedRepay).Success?
    ensures var sizing := CalculateLiquidation(prices, debt, collateral, requestedRepay).value;
            var caps := RepayCaps(prices, debt, collateral).value;
            && 0 < sizing.repaidAmount <= Min(debt, requestedRepay)
            && sizing.collateralSeized <= collateral
            && (sizing.collateralSeized == collateral <==> caps.CollateralLimited(requestedRepay))
            && (sizing.collateralSeized == collateral
                || sizing.repaidAmount == debt
                || debt - sizing.repaidAmount >= MINIMUM_USDC_BORROW)
  {
    hide Floor, SeizedForRepay;
    var caps := RepayCaps(prices, debt, collateral).value;
    assert caps.closeFactorLimit <= debt;
    var repay := CappedRepay(caps, debt, requestedRepay).value;
    if !caps.CollateralLimited(requestedRepay) {
      assert repay < caps.collateralLimitedRepay;
      SeizedBelowCollateral(prices, debt, collateral, repay);
    }
  }

  // What the sizing chooses ----------------------------------------------------------------

  /** Half of the debt, or all of it when half would leave less than one USDC. */
  ghost function CloseLimit(debt: nat): nat {
    if debt - debt / 2 < 1_000_000 then debt else debt / 2
  }

  /** The collateral is worth at least the repayment and its bonus of five percent. */
  ghost predicate IsCovered(prices: Prices, collateral: nat, repay: nat)
    requires prices.usdc.Success? && CollateralValue(prices, collateral).Success?
  {
    repay * prices.usdc.value * 10_000 * 10_500 <= CollateralValue(prices, collateral).value * 10_000
  }

  /** A repayment within the request, the close factor and the worth of the collateral. */
  ghost predicate IsAllowed(prices: Prices, debt: nat, collateral: nat, requestedRepay: nat, repay: nat)
    requires prices.usdc.Success? && CollateralValue(prices, collateral).Success?
  {
    repay <= requestedRepay && repay <= CloseLimit(debt) && IsCovered(prices, collateral, repay)
  }

  predicate LeavesDust(debt: nat, repay: nat) {
    repay < debt < repay + 1_000_000
  }

  lemma CapsInClosedForm(prices: Prices, debt: nat, collateral: nat, repay: nat)
    requires prices.Positive() && RepayCaps(prices, debt, collateral).Success?
    ensures prices.usdc.Success? && CollateralValue(prices, collateral).Success?
    ensures var caps := RepayCaps(prices, debt, collateral).value;
            && caps.closeFactorLimit == CloseLimit(debt)
            && (IsCovered(prices, collateral, repay) <==> repay <= caps.collateralLimitedRepay)
  {
    hide CollateralValue;
    assert Floor(debt, CLOSE_FACTOR_BPS, BPS) == debt / 2;
    hide Floor;
    var price, value := prices.usdc.value, CollateralValue(prices, collateral).value;
    var limitedValue := Floor(value, BPS, BPS + LIQUIDATION_BONUS_BPS);
    var atPrecision := Floor(limitedValue, 1, price);
    NestedFloors(value, price, repay, limitedValue, atPrecision, Floor(atPrecision, 1, BPS));
  }

  /** Dividing step by step rounds down to the same amount as dividing once. */
  lemma NestedFloors(value: nat, price: nat, repay: nat, limitedValue: nat, atPrecision: nat, limit: nat)
    requires price > 0 && limitedValue == Floor(value, 10_000, 10_500)
    requires atPrecision == Floor(limitedValue, 1, price) && limit == Floor(atPrecision, 1, 10_000)
    ensures repay * price * 10_000 * 10_500 <= value * 10_000 <==> repay <= limit
  {
    hide Floor;
    FloorBounds(value, 10_000, 10_500);
    FloorBounds(limitedValue, 1, price);
    FloorBounds(atPrecision, 1, 10_000);
    var worth := repay * 10_000 * price;
    assert repay * price * 10_000 == worth;
    if repay <= limit {
      MulMono(repay * 10_000, atPrecision, price);
    } else {
      MulMono(atPrecision + 1, repay * 10_000, price);
    }
  }

  /** Sizing repays the most it may: nothing more is allowed, but amounts that leave dust. All collateral goes
      exactly when it covers no more than request and close factor allow. */
  lemma SizingIsGreatest(prices: Prices, debt: nat, collateral: nat, requestedRepay: nat)
    requires prices.Positive() && CalculateLiquidation(prices, debt, collateral, requestedRepay).Success?
    ensures prices.usdc.Success? && CollateralValue(prices, collateral).Success?
    ensures var sizing := CalculateLiquidation(prices, debt, collateral, requestedRepay).value;
            && IsAllowed(prices, debt, collateral, requestedRepay, sizing.repaidAmount)
            && (debt - debt / 2 >= 1_000_000 ==> 2 * sizing.repaidAmount <= debt)
            && (forall r: nat :: r > sizing.repaidAmount && IsAllowed(prices, debt, collateral, requestedRepay, r) ==>
                  LeavesDust(debt, r))
            && (sizing.collateralSeized == collateral <==>
                !IsCovered(prices, collateral, Min(requestedRepay, CloseLimit(debt)) + 1))
            && (sizing.collateralSeized < collateral ==>
                  && !LeavesDust(debt, sizing.repaidAmount)
                  && SeizedForRepay(prices, sizing.repaidAmount) == Success(sizing.collateralSeized))
  {
    hide CollateralValue, RepayCaps, SeizedForRepay, IsCovered, CloseLimit;
    SizingFitsPosition(prices, debt, collateral, requestedRepay);
    var sizing := CalculateLiquidation(prices, debt, collateral, requestedRepay).value;
    CapsInClosedForm(prices, debt, collateral, sizing.repaidAmount);
    CapsInClosedForm(prices, debt, collateral, Min(requestedRepay, CloseLimit(debt)) + 1);
    forall r: nat | r > sizing.repaidAmount && IsAllowed(prices, debt, collateral, requestedRepay, r)
      ensures LeavesDust(debt, r)
    {
      CapsInClosedForm(prices, debt, collateral, r);
    }
    CloseFactorIsHalf(debt);
  }

  /** Sizing finds nothing to do only when every allowed repayment leaves dust, or the one it chose seizes nothing. */
  lemma SizingTooSmall(prices: Prices, debt: nat, collateral: nat, requestedRepay: nat)
    requires prices.Positive()
    requires CalculateLiquidation(prices, debt, collateral, requestedRepay) == Failure(LiquidationAmountTooSmall)
    requires prices.weth != Failure(LiquidationAmountTooSmall) && prices.usdc != Failure(LiquidationAmountTooSmall)
    ensures prices.usdc.Success? && CollateralValue(prices, collateral).Success?
    ensures || (forall r: nat :: r > 0 && IsAllowed(prices, debt, collateral, requestedRepay, r) ==>
                                   LeavesDust(debt, r))
            || (exists r: nat :: IsAllowed(prices, debt, collateral, requestedRepay, r)
                                 && SeizedForRepay(prices, r) == Success(0))
  {
    hide CollateralValue, IsCovered, CloseLimit, SeizedForRepay;
    assert RepayCaps(prices, debt, collateral).Success? by { SizingErrors(prices, debt, collateral, requestedRepay); }
    hide RepayCaps;
    var caps := RepayCaps(prices, debt, collateral).value;
    var repay := CappedRepay(caps, debt, requestedRepay).value;
    CapsInClosedForm(prices, debt, collateral, repay);
    CloseFactorIsHalf(debt);
    if repay == 0 {
      forall r: nat | r > 0 && IsAllowed(prices, debt, collateral, requestedRepay, r) ensures LeavesDust(debt, r) {
        CapsInClosedForm(prices, debt, collateral, r);
      }
    } else {
      SizingErrors(prices, debt, collateral, requestedRepay);
      assert IsAllowed(prices, debt, collateral, requestedRepay, repay);
    }
  }

  /** Where that error can come from. */
  lemma SizingErrors(prices: Prices, debt: nat, collateral: nat, requestedRepay: nat)
    requires CalculateLiquidation(prices, debt, collateral, requestedRepay) == Failure(LiquidationAmountTooSmall)
    requires prices.weth != Failure(LiquidationAmountTooSmall) && prices.usdc != Failure(LiquidationAmountTooSmall)
    ensures RepayCaps(prices, debt, collateral).Success?
    ensures var caps := RepayCaps(prices, debt, collateral).value;
            && CappedRepay(caps, debt, requestedRepay).Success?
            && (|| CappedRepay(caps, debt, requestedRepay).value == 0
                || SeizedForRepay(prices, CappedRepay(caps, debt, requestedRepay).value) == Success(0))
  {
    hide Floor;
  }

  lemma CloseFactorIsHalf(debt: nat)
    ensures debt - debt / 2 >= 1_000_000 ==> 2 * CloseLimit(debt) <= debt
    ensures CloseLimit(debt) <= debt
  {
  }

  /** What a repayment seizes is worth at most five percent more than it, and one wei more would be worth more, up to
      the rounding of the bonus. */
  lemma SeizureIsGreatest(prices: Prices, repay: nat)
    requires prices.Positive() && SeizedForRepay(prices, repay).Success?
    ensures prices.usdc.Success? && prices.weth.Success?
    ensures var seized := SeizedForRepay(prices, repay).value;
            var value := repay * prices.usdc.value * 10_000;
            && seized * prices.weth.value * 10_000 <= value * 10_500 * 100_000_000
            && (value * 10_500 - 9_999) * 100_000_000 < (seized + 1) * prices.weth.value * 10_000
  {
    hide Floor;
    var value, weth := repay * prices.usdc.value * 10_000, prices.weth.value;
    FloorBounds(value, 10_500, 10_000);
    var bonused := Floor(value, 10_500, 10_000);
    FloorBounds(bonused, 100_000_000, weth);
  }

  /** On a debt of at least the minimum, the dust rule never underflows: sizing fails only for missing
      prices, overflow, or an amount that rounds to nothing. */
  lemma SizingNeverUnderflows(prices: Prices, debt: nat, collateral: nat, requestedRepay: nat)
    requires prices.Positive() && prices.weth.Success? && prices.usdc.Success? && debt >= MINIMUM_USDC_BORROW
    ensures CalculateLiquidation(prices, debt, collateral, requestedRepay).Failure? ==>
              CalculateLiquidation(prices, debt, collateral, requestedRepay).error
                in {Overflow, LiquidationAmountTooSmall}
  {
    hide Floor;
    FloorBounds(debt, CLOSE_FACTOR_BPS, BPS);
  }
}
