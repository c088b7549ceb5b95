/** Interest accrual is sound for every storage and every elapsed time (LendingPool.sol). */
module AccrualSoundness {
  import opened Results
  import opened FixedPoint
  import opened Pool
  import InterestRateModel

  /** Both indices start at one RAY; every accrual keeps them there or above. */
  ghost predicate Indexed(p: Storage) {
    p.borrowIndex >= RAY && p.liquidityIndex >= RAY
  }

  /** Total performing debt, rounded up as the debt token reports it. */
  ghost function TotalDebt(p: Storage): nat {
    Ceil(p.debts.total, p.borrowIndex, RAY)
  }

  /** Total supplier claims, rounded down as the deposit token reports them. */
  ghost function TotalSupply(p: Storage): nat {
    Floor(p.deposits.total, p.liquidityIndex, RAY)
  }

  // The projection in closed form --------------------------------------------------------------

  /** The lent share of the pool's liquidity. */
  ghost function LentShare(p: Storage): nat
    requires TotalDebt(p) > 0
  {
    Floor(TotalDebt(p), RAY, p.available + TotalDebt(p))
  }

  /** A year has 31_536_000 seconds; growth is linear within one accrual. */
  ghost function Grown(index: nat, rate: nat, elapsed: nat): nat {
    Floor(index, RAY + Floor(rate, elapsed, 31_536_000), RAY)
  }

  /** The borrow index after some seconds at the rate of the pool's utilization. */
  ghost function GrownIndex(p: Storage, elapsed: nat): nat {
    if elapsed == 0 || TotalDebt(p) == 0 then p.borrowIndex else
    Grown(p.borrowIndex, InterestRateModel.CurveRate(LentShare(p)), elapsed)
  }

  /** The liquidity index at nine tenths of the borrow rate on the lent share, before any cap. */
  ghost function GrownLiquidity(p: Storage, elapsed: nat): nat {
    if elapsed == 0 || TotalDebt(p) == 0 then p.liquidityIndex else
    var gross := Floor(InterestRateModel.CurveRate(LentShare(p)), LentShare(p), RAY);
    Grown(p.liquidityIndex, Floor(gross, 9_000, 10_000), elapsed)
  }

  /** An index gives suppliers no more than nine tenths of the borrowers' interest. */
  ghost predicate WithinShare(p: Storage, borrow: nat, index: nat) {
    Floor(p.deposits.total, index, RAY) - TotalSupply(p)
    <= Floor(Max(0, Ceil(p.debts.total, borrow, RAY) - TotalDebt(p)), 9_000, 10_000)
  }

  function Max(x: int, y: int): int {
    if x < y then y else x
  }

  /** Of the indices up to the full one, suppliers get exactly the greatest within their share. */
  ghost predicate IsMostAllowed(p: Storage, borrow: nat, full: nat, index: nat) {
    && index <= full
    && if p.deposits.total == 0 then index == full
       else forall i: nat :: i <= full ==> (WithinShare(p, borrow, i) <==> i <= index)
  }

  /** The capped index is the greatest one whose floored supplier claim stays within the limit. */
  lemma CapIsGreatestIndex(scaledSupply: nat, maximumSupply: nat, index: nat)
    requires scaledSupply > 0
    requires MaximumLiquidityIndex(scaledSupply, maximumSupply).Success?
    ensures Floor(scaledSupply, index, RAY) <= maximumSupply <==>
            index <= MaximumLiquidityIndex(scaledSupply, maximumSupply).value
  {
    var units := maximumSupply + 1;
    var cap := MaximumLiquidityIndex(scaledSupply, maximumSupply).value;
    var quotient := Floor(units, RAY, scaledSupply);
    var remainder := units * RAY % scaledSupply;
    assert units * RAY == quotient * scaledSupply + remainder;
    hide Floor;
    FloorBounds(scaledSupply, index, RAY);
    if index <= cap {
      // index * scaledSupply < units * RAY
      MulMono(index, cap, scaledSupply);
      assert cap * scaledSupply == if remainder == 0 then quotient * scaledSupply - scaledSupply
                                   else quotient * scaledSupply;
      MulCancel(Floor(scaledSupply, index, RAY), maximumSupply, RAY);
    } else {
      // index * scaledSupply >= units * RAY
      MulMono(cap + 1, index, scaledSupply);
      assert (cap + 1) * scaledSupply >= units * RAY by {
        assert (cap + 1) * scaledSupply == if remainder == 0 then quotient * scaledSupply
                                           else quotient * scaledSupply + scaledSupply;
      }
      FloorGreatest(scaledSupply, index, RAY, units);
    }
  }

  lemma CapNeverUnderflows(scaledSupply: nat, maximumSupply: nat)
    requires scaledSupply > 0
    ensures MaximumLiquidityIndex(scaledSupply, maximumSupply).Failure? ==>
              MaximumLiquidityIndex(scaledSupply, maximumSupply).error == Overflow
  {
    var units := maximumSupply + 1;
    assert units * RAY == Floor(units, RAY, scaledSupply) * scaledSupply + units * RAY % scaledSupply;
  }

  /** Growth by at least one RAY per RAY never lowers an index. */
  lemma GrowthNeverShrinks(index: nat, growth: nat)
    ensures Floor(index, RAY + growth, RAY) >= index
  {
    hide Floor;
    MulMono(RAY, RAY + growth, index);
    FloorGreatest(index, RAY + growth, RAY, index);
  }

  lemma CappedIndexSound(p: Storage, projectedBorrow: nat, projectedLiquidity: nat)
    requires p.borrowIndex <= projectedBorrow && p.liquidityIndex <= projectedLiquidity
    ensures var r := CappedLiquidityIndex(p, projectedBorrow, projectedLiquidity);
            match r
            case Failure(e) => e == Overflow
            case Success(index) =>
              var debtInterest := Ceil(p.debts.total, projectedBorrow, RAY) - TotalDebt(p);
              && p.liquidityIndex <= index <= projectedLiquidity
              && 0 <= Floor(p.deposits.total, index, RAY) - TotalSupply(p) <= debtInterest
              && (Floor(p.deposits.total, index, RAY) - TotalSupply(p)) * BPS
                 <= debtInterest * (BPS - RESERVE_FACTOR_BPS)
              && IsMostAllowed(p, projectedBorrow, projectedLiquidity, index)
  {
    hide Floor, Ceil, MaximumLiquidityIndex;
    CeilMono(p.debts.total, p.borrowIndex, p.debts.total, projectedBorrow, RAY);
    FloorMono(p.deposits.total, p.liquidityIndex, p.deposits.total, projectedLiquidity, RAY);
    var debtInterest := Ceil(p.debts.total, projectedBorrow, RAY) - TotalDebt(p);
    FloorBounds(debtInterest, BPS - RESERVE_FACTOR_BPS, BPS);
    var limit := TotalSupply(p) + Floor(debtInterest, BPS - RESERVE_FACTOR_BPS, BPS);
    if p.deposits.total == 0 {
      ZeroProduct(p.liquidityIndex, RAY);
      ZeroProduct(projectedLiquidity, RAY);
    } else {
      CapNeverUnderflows(p.deposits.total, limit);
      if MaximumLiquidityIndex(p.deposits.total, limit).Success? {
        var cap := MaximumLiquidityIndex(p.deposits.total, limit).value;
        CapIsGreatestIndex(p.deposits.total, limit, cap);
        CapIsGreatestIndex(p.deposits.total, limit, p.liquidityIndex);
        CapIsGreatestIndex(p.deposits.total, limit, projectedLiquidity);
        FloorMono(p.deposits.total, p.liquidityIndex, p.deposits.total, cap, RAY);
      }
      if CappedLiquidityIndex(p, projectedBorrow, projectedLiquidity).Success? {
        CappedIndexIsMost(p, projectedBorrow, projectedLiquidity);
      }
    }
  }

  lemma CappedIndexIsMost(p: Storage, projectedBorrow: nat, projectedLiquidity: nat)
    requires p.borrowIndex <= projectedBorrow && p.liquidityIndex <= projectedLiquidity && p.deposits.total > 0
    requires CappedLiquidityIndex(p, projectedBorrow, projectedLiquidity).Success?
    requires CappedLiquidityIndex(p, projectedBorrow, projectedLiquidity).value <= projectedLiquidity
    ensures IsMostAllowed(p, projectedBorrow, projectedLiquidity,
                          CappedLiquidityIndex(p, projectedBorrow, projectedLiquidity).value)
  {
    hide Floor, Ceil, MaximumLiquidityIndex;
    CeilMono(p.debts.total, p.borrowIndex, p.debts.total, projectedBorrow, RAY);
    var debtInterest := Ceil(p.debts.total, projectedBorrow, RAY) - TotalDebt(p);
    var limit := TotalSupply(p) + Floor(debtInterest, 9_000, 10_000);
    var index := CappedLiquidityIndex(p, projectedBorrow, projectedLiquidity).value;
    forall i: nat | i <= projectedLiquidity ensures WithinShare(p, projectedBorrow, i) <==> i <= index {
      FloorMono(p.deposits.total, i, p.deposits.total, projectedLiquidity, RAY);
      FloorMono(p.deposits.total, p.liquidityIndex, p.deposits.total, projectedLiquidity, RAY);
      if MaximumLiquidityIndex(p.deposits.total, limit).Success? {
        CapIsGreatestIndex(p.deposits.total, limit, i);
      }
    }
  }

  lemma ProjectionSound(p: Storage, now: nat)
    requires Indexed(p) && p.lastUpdate <= now
    ensures match ProjectedIndices(p, now)
            case Failure(e) => e == Overflow
            case Success(next) =>
              var debtInterest := Ceil(p.debts.total, next.borrow, RAY) - TotalDebt(p);
              var supplierInterest := Floor(p.deposits.total, next.liquidity, RAY) - TotalSupply(p);
              && p.borrowIndex <= next.borrow && p.liquidityIndex <= next.liquidity
              && 0 <= supplierInterest <= debtInterest
              && supplierInterest * BPS <= debtInterest * (BPS - RESERVE_FACTOR_BPS)
              && next.borrow == GrownIndex(p, now - p.lastUpdate)
              && IsMostAllowed(p, next.borrow, GrownLiquidity(p, now - p.lastUpdate), next.liquidity)
  {
    hide Floor, Ceil, CappedLiquidityIndex, InterestRateModel.Utilization, InterestRateModel.BorrowRate,
         InterestRateModel.LiquidityRate, InterestRateModel.CurveRate, IsMostAllowed;
    if p.lastUpdate != now && p.debts.total != 0 {
      CeilPositive(p.debts.total, p.borrowIndex, RAY);
      var debt := TotalDebt(p);
      if debt <= MAX_UINT256 && p.available + debt <= MAX_UINT256 {
        InterestRateModel.RatesAreSound(p.available, debt, RESERVE_FACTOR_BPS);
        RatesInClosedForm(p);
        var u := InterestRateModel.Utilization(p.available, debt).value;
        var borrowRate := InterestRateModel.BorrowRate(u).value;
        var liquidityRate := InterestRateModel.LiquidityRate(u, borrowRate, RESERVE_FACTOR_BPS).value;
        var borrowGrowth := Floor(borrowRate, now - p.lastUpdate, SECONDS_PER_YEAR);
        var liquidityGrowth := Floor(liquidityRate, now - p.lastUpdate, SECONDS_PER_YEAR);
        GrowthNeverShrinks(p.borrowIndex, borrowGrowth);
        GrowthNeverShrinks(p.liquidityIndex, liquidityGrowth);
        CappedIndexSound(p, Floor(p.borrowIndex, RAY + borrowGrowth, RAY),
                         Floor(p.liquidityIndex, RAY + liquidityGrowth, RAY));
      } else if debt <= MAX_UINT256 {
        UtilizationOverflows(p.available, debt);
      }
    } else {
      ZeroProduct(p.borrowIndex, RAY);
      StandingIndexIsMost(p);
    }
  }

  lemma RatesInClosedForm(p: Storage)
    requires 0 < TotalDebt(p) && p.available + TotalDebt(p) <= MAX_UINT256
    ensures InterestRateModel.Utilization(p.available, TotalDebt(p)) == Success(LentShare(p))
    ensures InterestRateModel.BorrowRate(LentShare(p)) == Success(InterestRateModel.CurveRate(LentShare(p)))
    ensures var rate := InterestRateModel.CurveRate(LentShare(p));
            var gross := Floor(rate, LentShare(p), RAY);
            InterestRateModel.LiquidityRate(LentShare(p), rate, RESERVE_FACTOR_BPS)
            == Success(Floor(gross, 9_000, 10_000))
  {
    hide Floor, Ceil, InterestRateModel.BorrowRate, InterestRateModel.CurveRate;
    InterestRateModel.UtilizationAtMostOne(p.available, TotalDebt(p));
    InterestRateModel.CurveMeaning(LentShare(p));
    InterestRateModel.RatesAreSound(p.available, TotalDebt(p), RESERVE_FACTOR_BPS);
  }

  /** Without interest the index stands: it takes nothing from the borrowers' interest. */
  lemma StandingIndexIsMost(p: Storage)
    ensures IsMostAllowed(p, p.borrowIndex, p.liquidityIndex, p.liquidityIndex)
  {
    hide Floor, Ceil;
    forall i: nat | i <= p.liquidityIndex ensures WithinShare(p, p.borrowIndex, i) {
      FloorMono(p.deposits.total, i, p.deposits.total, p.liquidityIndex, RAY);
    }
  }

  lemma UtilizationOverflows(available: nat, debt: nat)
    requires debt > 0 && available + debt > MAX_UINT256
    ensures InterestRateModel.Utilization(available, debt) == Failure(Overflow)
  {
  }

  /** Accrual either overflows 256 bits or succeeds: the indices never decrease, suppliers receive at
      most 90% of the borrowers' interest, and what is left for the reserve is never negative. */
  lemma AccrualIsSound(p: Storage, now: nat)
    requires Indexed(p) && p.lastUpdate <= now
    ensures match AccrueInterest(p, now)
            case Failure(e) => e == Overflow
            case Success(step) =>
              var q := step.after;
              && Indexed(q)
              && p.borrowIndex <= q.borrowIndex && p.liquidityIndex <= q.liquidityIndex
              && q.lastUpdate == now
              && q == p.(borrowIndex := q.borrowIndex, liquidityIndex := q.liquidityIndex,
                         lastUpdate := q.lastUpdate, reserve := q.reserve)
              && var debtInterest := TotalDebt(q) - TotalDebt(p);
                 var supplierInterest := TotalSupply(q) - TotalSupply(p);
                 && 0 <= supplierInterest <= debtInterest
                 && supplierInterest * BPS <= debtInterest * (BPS - RESERVE_FACTOR_BPS)
                 && q.reserve == p.reserve + debtInterest - supplierInterest
                 && q.borrowIndex == GrownIndex(p, now - p.lastUpdate)
                 && IsMostAllowed(p, q.borrowIndex, GrownLiquidity(p, now - p.lastUpdate), q.liquidityIndex)
                 && step.events == if now == p.lastUpdate then [] else
                                     [InterestAccrued(now, q.borrowIndex, q.liquidityIndex,
                                                      debtInterest - supplierInterest)]
  {
    hide Floor, Ceil, ProjectedIndices, IsMostAllowed, GrownIndex, GrownLiquidity;
    ProjectionSound(p, now);
    if now == p.lastUpdate {
      NoTimeNoGrowth(p);
    }
  }

  lemma NoTimeNoGrowth(p: Storage)
    ensures GrownIndex(p, 0) == p.borrowIndex && GrownLiquidity(p, 0) == p.liquidityIndex
    ensures IsMostAllowed(p, p.borrowIndex, p.liquidityIndex, p.liquidityIndex)
  {
    StandingIndexIsMost(p);
  }
}
