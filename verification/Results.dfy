/** The outcome of a call: a value, or the revert (Solidity) or exception (C++) that ended it. */
module Results {

  /** Why a call failed. Solidity's checked arithmetic and the C++ `checked_uint256_t`
      share the first three; the others are the custom errors and exceptions of the callers. */
  datatype Error =
    | Overflow
    | Underflow
    | DivisionByZero
    | InsufficientBalance
    // LendingPool.sol
    | InvalidAddress
    | ZeroAmount
    | ScaledAmountTooSmall
    | UnsupportedAsset
    | AssetNotBorrowable
    | AssetNotRepayable
    | InsufficientSupply(supplied: nat, requested: nat)
    | InsufficientLiquidity(available: nat, wanted: nat)
    | BorrowBelowMinimum(amount: nat)
    | BorrowCapacityExceeded(debtValueWad: nat, maxBorrowValueWad: nat)
    | UnhealthyPosition(healthFactor: nat)
    | NoDebt
    | RemainingDebtBelowMinimum(remainingDebt: nat)
    | LiquidationExceedsDebt(debt: nat, repayment: nat)
    | LiquidationExceedsCollateral(collateral: nat, seized: nat)
    // InterestRateModel.sol
    | InvalidUtilization(utilization: nat)
    | InvalidReserveFactor(reserveFactorBps: nat)
    // PriceOracle.sol
    | InvalidAsset
    | InvalidMaxPriceAge
    | AssetAlreadyRegistered
    | InvalidPrice
    | InvalidReportTimestamp
    | StaleReport
    | InvalidRound(currentRoundId: nat, submittedRoundId: nat)
    | PriceNotSet
    | StalePrice
    // LiquidationManager.sol
    | UnsupportedDebtAsset
    | UnsupportedCollateralAsset
    | PositionHasNoDebt
    | PositionHasNoCollateral
    | PositionIsHealthy(currentHealthFactor: nat)
    | LiquidationAmountTooSmall
    | CollateralOutputBelowMinimum(collateralOut: nat, minimum: nat)
    // StateProjector.cpp
    | RepaidEventDoesNotMatch
    // RiskCalculator.cpp
    | PriceUnavailable
    | Uint64Overflow
    // Indexer.cpp, PostgresStore.cpp
    | RpcFailure
    | MissingBlock
    | BlockNumberMismatch
    | BlockChangedDuringFetch
    | UniqueViolation
    | CheckViolation
    // store.go
    | LeaseHeld

  datatype Result<+T> = Success(value: T) | Failure(error: Error) {
    predicate IsFailure() {
      Failure?
    }

    function PropagateFailure<U>(): (r: Result<U>)
      requires Failure?
    {
      Failure(error)
    }

    function Extract(): (r: T)
      requires Success?
    {
      value
    }
  }

  datatype Option<+T> = None | Some(value: T)
}
