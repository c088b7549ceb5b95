/** The kinked interest-rate curve (InterestRateModel.sol). */
module InterestRateModel {
  import opened Results
  import opened FixedPoint

  const OPTIMAL_UTILIZATION: nat := 800_000_000_000_000_000_000_000_000
  const BASE_RATE: nat := 20_000_000_000_000_000_000_000_000
  const SLOPE_1: nat := 80_000_000_000_000_000_000_000_000
  const SLOPE_2: nat := 1_000_000_000_000_000_000_000_000_000

  function Utilization(availableLiquidity: nat, totalDebt: nat): Result<nat> {
    if totalDebt == 0 then Success(0) else
    var both :- Add(availableLiquidity, totalDebt);
    MulDivDown(totalDebt, RAY, both)
  }

  function BorrowRate(utilizationRay: nat): Result<nat> {
    if utilizationRay > RAY then Failure(InvalidUtilization(utilizationRay))
    else if utilizationRay <= OPTIMAL_UTILIZATION then
      var slope :- MulDivDown(utilizationRay, SLOPE_1, OPTIMAL_UTILIZATION);
      Add(BASE_RATE, slope)
    else
      var slope :- MulDivDown(utilizationRay - OPTIMAL_UTILIZATION, SLOPE_2, RAY - OPTIMAL_UTILIZATION);
      Add(BASE_RATE + SLOPE_1, slope)
  }

  function LiquidityRate(utilizationRay: nat, borrowRateRay: nat, reserveFactorBps: nat): Result<nat> {
    if utilizationRay > RAY then Failure(InvalidUtilization(utilizationRay))
    else if reserveFactorBps > BPS then Failure(InvalidReserveFactor(reserveFactorBps))
    else
      var gross :- MulDivDown(borrowRateRay, utilizationRay, RAY);
      MulDivDown(gross, BPS - reserveFactorBps, BPS)
  }

  /** The curve is defined on every market, never decreases, and tops out at 110% a year;
      the supplier rate never exceeds the share of the borrow rate left by the reserve factor. */
  lemma RatesAreSound(availableLiquidity: nat, totalDebt: nat, reserveFactorBps: nat)
    requires availableLiquidity + totalDebt <= MAX_UINT256 && reserveFactorBps <= BPS
    ensures Utilization(availableLiquidity, totalDebt).Success?
    ensures var u := Utilization(availableLiquidity, totalDebt).value;
            && u <= RAY
            && BorrowRate(u).Success? && BASE_RATE <= BorrowRate(u).value <= BASE_RATE + SLOPE_1 + SLOPE_2
            && LiquidityRate(u, BorrowRate(u).value, reserveFactorBps).Success?
            && LiquidityRate(u, BorrowRate(u).value, reserveFactorBps).value * BPS <=
               BorrowRate(u).value * (BPS - reserveFactorBps)
  {
    hide Floor;
    if totalDebt > 0 {
      FloorBounds(totalDebt, RAY, availableLiquidity + totalDebt);
      UtilizationAtMostOne(availableLiquidity, totalDebt);
    }
    var u := Utilization(availableLiquidity, totalDebt).value;
    BorrowRateBounds(u);
    var b := BorrowRate(u).value;
    FloorScalesDown(b, u, RAY);
    var gross := Floor(b, u, RAY);
    FloorScalesDown(gross, BPS - reserveFactorBps, BPS);
    FloorBounds(gross, BPS - reserveFactorBps, BPS);
    MulMono(gross, b, BPS - reserveFactorBps);
  }

  lemma UtilizationAtMostOne(availableLiquidity: nat, totalDebt: nat)
    requires totalDebt > 0
    ensures Floor(totalDebt, RAY, availableLiquidity + totalDebt) <= RAY
  {
    hide Floor;
    var both := availableLiquidity + totalDebt;
    FloorBounds(totalDebt, RAY, both);
    assert totalDebt * RAY <= RAY * both;
    MulCancel(Floor(totalDebt, RAY, both), RAY, both);
  }

  /** A factor of at most d / d can only shrink a value. */
  lemma FloorScalesDown(x: nat, y: nat, d: nat)
    requires d > 0 && y <= d
    ensures Floor(x, y, d) <= x
  {
    hide Floor;
    FloorBounds(x, y, d);
    MulMono(y, d, x);
    MulCancel(Floor(x, y, d), x, d);
  }

  lemma BorrowRateBounds(u: nat)
    requires u <= RAY
    ensures BorrowRate(u).Success? && BASE_RATE <= BorrowRate(u).value <= BASE_RATE + SLOPE_1 + SLOPE_2
  {
    hide Floor;
    if u <= OPTIMAL_UTILIZATION {
      FloorBounds(u, SLOPE_1, OPTIMAL_UTILIZATION);
    } else {
      FloorBounds(u - OPTIMAL_UTILIZATION, SLOPE_2, RAY - OPTIMAL_UTILIZATION);
    }
  }

  /** The curve in closed form: 2% plus a tenth of the utilization up to 80%, and beyond it 10% plus five times the
      excess, so 110% at full utilization. */
  ghost function CurveRate(utilizationRay: nat): nat {
    if utilizationRay <= 800_000_000_000_000_000_000_000_000 then
      20_000_000_000_000_000_000_000_000 + utilizationRay / 10
    else 100_000_000_000_000_000_000_000_000 + 5 * (utilizationRay - 800_000_000_000_000_000_000_000_000)
  }

  lemma CurveMeaning(utilizationRay: nat)
    ensures utilizationRay <= RAY ==> BorrowRate(utilizationRay) == Success(CurveRate(utilizationRay))
    ensures utilizationRay > RAY ==> BorrowRate(utilizationRay).Failure?
  {
  }

  /** Utilization is the lent share of all liquidity, rounded down; none is lent out of an empty pool. */
  lemma UtilizationMeaning(availableLiquidity: nat, totalDebt: nat)
    requires availableLiquidity + totalDebt <= MAX_UINT256
    ensures var u := Utilization(availableLiquidity, totalDebt);
            && u.Success? && (totalDebt == 0 ==> u.value == 0)
            && (totalDebt > 0 ==> u.value * (availableLiquidity + totalDebt) <= totalDebt * RAY
                                  < (u.value + 1) * (availableLiquidity + totalDebt))
  {
    hide Floor;
    if totalDebt > 0 {
      FloorBounds(totalDebt, RAY, availableLiquidity + totalDebt);
      UtilizationAtMostOne(availableLiquidity, totalDebt);
    }
  }

  /** Higher utilization never lowers the borrow rate, across the kink as well. */
  lemma BorrowRateMonotone(u: nat, v: nat)
    requires u <= v <= RAY
    ensures BorrowRate(u).Success? && BorrowRate(v).Success?
    ensures BorrowRate(u).value <= BorrowRate(v).value
  {
    hide Floor;
    BorrowRateBounds(u);
    BorrowRateBounds(v);
    if v <= OPTIMAL_UTILIZATION {
      FloorMono(u, SLOPE_1, v, SLOPE_1, OPTIMAL_UTILIZATION);
    } else if u > OPTIMAL_UTILIZATION {
      FloorMono(u - OPTIMAL_UTILIZATION, SLOPE_2, v - OPTIMAL_UTILIZATION, SLOPE_2, RAY - OPTIMAL_UTILIZATION);
    } else {
      FloorBounds(u, SLOPE_1, OPTIMAL_UTILIZATION);
    }
  }
}
