/** The projector at work (StateProjector.cpp): a derived state updated in place, event by event, and
    rebuilt from logs by filtering, sorting and replaying. */
module Projection {
  import opened Results
  import opened FixedPoint
  import opened Ledgers
  import opened RiskManager
  import opened Pool
  import opened StateProjector
  import opened ReplayOrder
  import opened Sorting

  class Projection {
    const contracts: Market
    var positions: map<Address, PositionState>
    var market: MarketState
    var liquidations: seq<LiquidationState>

    constructor (contracts: Market, state: DerivedState)
      ensures this.contracts == contracts && State() == state
    {
      this.contracts := contracts;
      positions, market, liquidations := state.positions, state.market, state.liquidations;
    }

    function State(): DerivedState
      reads this
    {
      DerivedState(positions, market, liquidations)
    }

    /** The user's row, created empty if missing. */
    method GetPosition(user: Address) returns (position: PositionState)
      modifies this`positions
      ensures user in positions && position == positions[user] == PositionOf(old(State()), user)
      ensures positions == old(positions)[user := position]
    {
      if user !in positions {
        positions := positions[user := NO_POSITION];
      }
      position := positions[user];
    }

    method DropIfEmpty(user: Address)
      modifies this`positions
      ensures State() == RemoveEmptyPosition(old(State()), user)
    {
      if user in positions && positions[user] == NO_POSITION {
        positions := positions - {user};
      }
    }

    method OnSupplied(user: Address, asset: Address, amount: nat) returns (r: Result<()>)
      modifies this
      ensures match ApplySupplied(contracts, old(State()), user, asset, amount)
              case Success(after) => r.Success? && State() == after
              case Failure(e) => r == Failure(e)
    {
      hide MulDivDown, MulDivUp, Add, Sub, SupplyAtIndex, DebtAtIndex;
      var position := GetPosition(user);
      if asset == contracts.weth {
        var collateral :- Add(position.wethCollateral, amount);
        positions := positions[user := position.(wethCollateral := collateral)];
        var total :- Add(market.totalWethCollateral, amount);
        market := market.(totalWethCollateral := total);
      } else if asset == contracts.usdc {
        var supplyBefore :- SupplyAtIndex(market.totalScaledUsdcSupply, market.liquidityIndex);
        var scaledMint :- MulDivDown(amount, RAY, market.liquidityIndex);
        var supply :- Add(position.scaledUsdcSupply, scaledMint);
        positions := positions[user := position.(scaledUsdcSupply := supply)];
        var total :- Add(market.totalScaledUsdcSupply, scaledMint);
        market := market.(totalScaledUsdcSupply := total);
        var supplyAfter :- SupplyAtIndex(market.totalScaledUsdcSupply, market.liquidityIndex);
        var claimIncrease :- Sub(supplyAfter, supplyBefore);
        var dust :- Sub(amount, claimIncrease);
        var reserve :- Add(market.protocolReserve, dust);
        market := market.(protocolReserve := reserve);
        var available :- Add(market.availableUsdcLiquidity, amount);
        market := market.(availableUsdcLiquidity := available);
      }
      return Success(());
    }

    method OnWithdrawn(user: Address, asset: Address, amount: nat) returns (r: Result<()>)
      modifies this
      ensures match ApplyWithdrawn(contracts, old(State()), user, asset, amount)
              case Success(after) => r.Success? && State() == after
              case Failure(e) => r == Failure(e)
    {
      hide MulDivUp, Add, Sub, SupplyAtIndex, BurnClaim;
      var position := GetPosition(user);
      if asset == contracts.weth {
        var collateral :- Sub(position.wethCollateral, amount);
        positions := positions[user := position.(wethCollateral := collateral)];
        var total :- Sub(market.totalWethCollateral, amount);
        market := market.(totalWethCollateral := total);
      } else if asset == contracts.usdc {
        var supplied :- SupplyAtIndex(position.scaledUsdcSupply, market.liquidityIndex);
        var scaledBurn := position.scaledUsdcSupply;
        if amount != supplied {
          scaledBurn :- MulDivUp(amount, RAY, market.liquidityIndex);
        }
        var supplyBefore :- SupplyAtIndex(market.totalScaledUsdcSupply, market.liquidityIndex);
        var supply :- Sub(position.scaledUsdcSupply, scaledBurn);
        positions := positions[user := position.(scaledUsdcSupply := supply)];
        var _ :- OnClaimBurned(supplyBefore, scaledBurn, amount);
      }
      DropIfEmpty(user);
      return Success(());
    }

    /** The market's side of a withdrawal. */
    method OnClaimBurned(supplyBefore: nat, scaledBurn: nat, amount: nat) returns (r: Result<()>)
      modifies this`market
      ensures match BurnClaim(old(market), supplyBefore, scaledBurn, amount)
              case Success(after) => r.Success? && market == after
              case Failure(e) => r == Failure(e)
    {
      hide Add, Sub, SupplyAtIndex;
      var total :- Sub(market.totalScaledUsdcSupply, scaledBurn);
      market := market.(totalScaledUsdcSupply := total);
      var supplyAfter :- SupplyAtIndex(market.totalScaledUsdcSupply, market.liquidityIndex);
      var claimDecrease :- Sub(supplyBefore, supplyAfter);
      var dust :- Sub(claimDecrease, amount);
      var reserve :- Add(market.protocolReserve, dust);
      market := market.(protocolReserve := reserve);
      var available :- Sub(market.availableUsdcLiquidity, amount);
      market := market.(availableUsdcLiquidity := available);
      return Success(());
    }

    method OnBorrowed(user: Address, asset: Address, amount: nat) returns (r: Result<()>)
      modifies this
      ensures match ApplyBorrowed(contracts, old(State()), user, asset, amount)
              case Success(after) => r.Success? && State() == after
              case Failure(e) => r == Failure(e)
    {
      hide MulDivDown, MulDivUp, Add, Sub, SupplyAtIndex, DebtAtIndex;
      if asset != contracts.usdc {
        return Success(());
      }
      var position := GetPosition(user);
      var debtBefore :- DebtAtIndex(position.scaledUsdcDebt, market.borrowIndex);
      var scaledMint :- MulDivUp(amount, RAY, market.borrowIndex);
      var debt :- Add(position.scaledUsdcDebt, scaledMint);
      positions := positions[user := position.(scaledUsdcDebt := debt)];
      var total :- Add(market.totalScaledUsdcDebt, scaledMint);
      market := market.(totalScaledUsdcDebt := total);
      var debtAfter :- DebtAtIndex(debt, market.borrowIndex);
      var debtIncrease :- Sub(debtAfter, debtBefore);
      var dust :- Sub(debtIncrease, amount);
      var reserve :- Add(market.protocolReserve, dust);
      market := market.(protocolReserve := reserve);
      var available :- Sub(market.availableUsdcLiquidity, amount);
      market := market.(availableUsdcLiquidity := available);
      return Success(());
    }

    method OnRepaid(user: Address, asset: Address, repaidAmount: nat, remainingDebt: nat) returns (r: Result<()>)
      modifies this
      ensures match ApplyRepaid(contracts, old(State()), user, asset, repaidAmount, remainingDebt)
              case Success(after) => r.Success? && State() == after
              case Failure(e) => r == Failure(e)
    {
      hide MulDivDown, MulDivUp, Add, Sub, SupplyAtIndex, DebtAtIndex;
      if asset != contracts.usdc {
        return Success(());
      }
      var position := GetPosition(user);
      var currentDebt :- DebtAtIndex(position.scaledUsdcDebt, market.borrowIndex);
      var scaledBurn := position.scaledUsdcDebt;
      if remainingDebt != 0 {
        scaledBurn :- MulDivDown(repaidAmount, RAY, market.borrowIndex);
      }
      var debt :- Sub(position.scaledUsdcDebt, scaledBurn);
      positions := positions[user := position.(scaledUsdcDebt := debt)];
      var total :- Sub(market.totalScaledUsdcDebt, scaledBurn);
      market := market.(totalScaledUsdcDebt := total);
      var projectedRemaining :- DebtAtIndex(debt, market.borrowIndex);
      if projectedRemaining != remainingDebt {
        return Failure(RepaidEventDoesNotMatch);
      }
      var debtReduction :- Sub(currentDebt, remainingDebt);
      var dust :- Sub(repaidAmount, debtReduction);
      var reserve :- Add(market.protocolReserve, dust);
      market := market.(protocolReserve := reserve);
      var available :- Add(market.availableUsdcLiquidity, repaidAmount);
      market := market.(availableUsdcLiquidity := available);
      DropIfEmpty(user);
      return Success(());
    }

    method OnLiquidated(log: RawLog, liquidator: Address, borrower: Address, debtAsset: Address,
                        collateralAsset: Address, repaidAmount: nat, seized: nat) returns (r: Result<()>)
      modifies this
      ensures match ApplyLiquidated(old(State()), log, liquidator, borrower, debtAsset, collateralAsset, repaidAmount,
                                    seized)
              case Success(after) => r.Success? && State() == after
              case Failure(e) => r == Failure(e)
    {
      hide MulDivDown, MulDivUp, Add, Sub, SupplyAtIndex, DebtAtIndex;
      var position := GetPosition(borrower);
      var currentDebt :- DebtAtIndex(position.scaledUsdcDebt, market.borrowIndex);
      var scaledBurn := position.scaledUsdcDebt;
      if repaidAmount < currentDebt {
        scaledBurn :- MulDivDown(repaidAmount, RAY, market.borrowIndex);
      }
      var debt :- Sub(position.scaledUsdcDebt, scaledBurn);
      position := position.(scaledUsdcDebt := debt);
      var totalDebt :- Sub(market.totalScaledUsdcDebt, scaledBurn);
      market := market.(totalScaledUsdcDebt := totalDebt);
      var remainingDebt :- DebtAtIndex(debt, market.borrowIndex);
      var debtReduction :- Sub(currentDebt, remainingDebt);
      var dust :- Sub(repaidAmount, debtReduction);
      var reserve :- Add(market.protocolReserve, dust);
      market := market.(protocolReserve := reserve);
      var available :- Add(market.availableUsdcLiquidity, repaidAmount);
      market := market.(availableUsdcLiquidity := available);
      var collateral :- Sub(position.wethCollateral, seized);
      position := position.(wethCollateral := collateral);
      positions := positions[borrower := position];
      var totalCollateral :- Sub(market.totalWethCollateral, seized);
      market := market.(totalWethCollateral := totalCollateral);
      liquidations := liquidations + [LiquidationState(
        log.blockNumber, log.blockHash, log.transactionHash, log.logIndex, liquidator, borrower,
        debtAsset, collateralAsset, repaidAmount, seized)];
      DropIfEmpty(borrower);
      return Success(());
    }

    method OnBadDebtRecognized(borrower: Address, amount: nat) returns (r: Result<()>)
      modifies this
      ensures match ApplyBadDebtRecognized(old(State()), borrower, amount)
              case Success(after) => r.Success? && State() == after
              case Failure(e) => r == Failure(e)
    {
      hide MulDivDown, MulDivUp, Add, Sub, SupplyAtIndex, DebtAtIndex;
      var position := GetPosition(borrower);
      var total :- Sub(market.totalScaledUsdcDebt, position.scaledUsdcDebt);
      market := market.(totalScaledUsdcDebt := total);
      positions := positions[borrower := position.(scaledUsdcDebt := 0)];
      var badDebt :- Add(market.badDebt, amount);
      market := market.(badDebt := badDebt);
      DropIfEmpty(borrower);
      return Success(());
    }

    method OnEvent(log: RawLog, event: IndexedEvent) returns (r: Result<()>)
      modifies this
      ensures match ApplyEvent(contracts, old(State()), log, event)
              case Success(after) => r.Success? && State() == after
              case Failure(e) => r == Failure(e)
    {
      hide ApplySupplied, ApplyWithdrawn, ApplyBorrowed, ApplyRepaid, ApplyLiquidated, ApplyBadDebtRecognized;
      match event {
        case Supplied(user, asset, amount) => r := OnSupplied(user, asset, amount);
        case Withdrawn(user, asset, amount) => r := OnWithdrawn(user, asset, amount);
        case Borrowed(user, asset, amount) => r := OnBorrowed(user, asset, amount);
        case Repaid(user, asset, amount, remaining) => r := OnRepaid(user, asset, amount, remaining);
        case InterestAccrued(timestamp, borrowIndex, liquidityIndex, reserveAccrued) =>
          market := market.(lastInterestTimestamp := timestamp, borrowIndex := borrowIndex,
                            liquidityIndex := liquidityIndex);
          var reserve :- Add(market.protocolReserve, reserveAccrued);
          market := market.(protocolReserve := reserve);
          r := Success(());
        case Liquidated(liquidator, borrower, debtAsset, collateralAsset, repaid, seized) =>
          r := OnLiquidated(log, liquidator, borrower, debtAsset, collateralAsset, repaid, seized);
        case BadDebtRecognized(borrower, amount) => r := OnBadDebtRecognized(borrower, amount);
        case PriceUpdated(asset, price, updatedAt) =>
          if asset == contracts.weth {
            market := market.(wethPrice := price, wethPriceUpdatedAt := updatedAt);
          } else if asset == contracts.usdc {
            market := market.(usdcPrice := price, usdcPriceUpdatedAt := updatedAt);
          }
          r := Success(());
        case AssetRegistered(asset, maxPriceAge) =>
          if asset == contracts.weth {
            market := market.(wethMaxPriceAge := maxPriceAge);
          } else if asset == contracts.usdc {
            market := market.(usdcMaxPriceAge := maxPriceAge);
          }
          r := Success(());
      }
    }

    /** Applies logs one after the other, stopping at the first that fails. */
    method Replay(logs: seq<RawLog>) returns (r: Result<()>)
      modifies this
      ensures match ApplyAll(contracts, old(State()), logs)
              case Success(after) => r.Success? && State() == after
              case Failure(e) => r == Failure(e)
    {
      hide ApplyEvent;
      for i := 0 to |logs|
        invariant ApplyAll(contracts, old(State()), logs[..i]) == Success(State())
      {
        assert logs[..i + 1][..i] == logs[..i] && logs[..i + 1][i] == logs[i];
        ApplyAllConcat(contracts, old(State()), logs[..i + 1], logs[i + 1..]);
        assert logs[..i + 1] + logs[i + 1..] == logs;
        if logs[i].event.Some? {
          var _ :- OnEvent(logs[i], logs[i].event.value);
        }
      }
      assert logs[..|logs|] == logs;
      return Success(());
    }
  }

  function CanonicalOnly(logs: seq<RawLog>): seq<RawLog> {
    if logs == [] then [] else
    CanonicalOnly(logs[..|logs| - 1]) + if logs[|logs| - 1].canonical then [logs[|logs| - 1]] else []
  }

  lemma ReplayOrderIsStrictWeak()
    ensures StrictWeakOrder(Before)
  {
  }

  /** Rebuilding replays the canonical logs in the one order without ties, whatever order they come in. */
  method Rebuild(m: Market, logs: seq<RawLog>) returns (r: Result<DerivedState>)
    ensures forall ordered :: StrictlyOrdered(ordered) && multiset(ordered) == multiset(CanonicalOnly(logs)) ==>
                                r == ApplyAll(m, CreateInitialState(), ordered)
  {
    var canonical := [];
    for i := 0 to |logs|
      invariant canonical == CanonicalOnly(logs[..i])
    {
      assert logs[..i + 1][..i] == logs[..i] && logs[..i + 1][i] == logs[i];
      if logs[i].canonical {
        canonical := canonical + [logs[i]];
      } else {
        assert canonical + [] == canonical;
      }
    }
    assert logs[..|logs|] == logs;
    ReplayOrderIsStrictWeak();
    var sorted := Sort(canonical, Before);
    forall ordered: seq<RawLog> | StrictlyOrdered(ordered) && multiset(ordered) == multiset(CanonicalOnly(logs))
      ensures ordered == sorted
    {
      SortedUniquely(sorted, ordered);
    }
    var projection := new Projection(m, CreateInitialState());
    var _ :- projection.Replay(sorted);
    return Success(projection.State());
  }
}
