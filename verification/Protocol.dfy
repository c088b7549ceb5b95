/** Transactions and whole runs of the deployed contracts: pool, liquidation manager and oracle. */
module Protocol {
  import opened Results
  import opened FixedPoint
  import opened Ledgers
  import opened RiskManager
  import opened Pool
  import opened LiquidationManager
  import opened AccrualSoundness
  import opened PoolEffects

  datatype Chain = Chain(pool: Storage, oracle: Oracle)

  datatype Call =
    | AccrueCall
    | SupplyCall(sender: Address, asset: Address, amount: nat)
    | BorrowCall(sender: Address, asset: Address, amount: nat)
    | RepayCall(sender: Address, asset: Address, amount: nat)
    | WithdrawCall(sender: Address, asset: Address, amount: nat)
    | LiquidateCall(sender: Address, borrower: Address, debtAsset: Address, collateralAsset: Address,
                    requestedRepay: nat, minCollateralOut: nat)
    // A direct call by any other holder of the pool's LIQUIDATION_ROLE.
    | ExecuteLiquidationCall(borrower: Address, liquidator: Address, repaidAmount: nat, seized: nat)
    | RegisterAssetCall(asset: Address, maxPriceAge: nat)
    | SetPriceCall(asset: Address, price: nat)
    | PublishPriceCall(asset: Address, price: nat, reportedAt: nat, roundId: nat)

  /** A transaction in a block with timestamp `now`. */
  datatype Tx = Tx(now: nat, call: Call)

  datatype Outcome = Outcome(after: Chain, events: seq<Event>)

  function RegisterAsset(oracle: Oracle, asset: Address, maxPriceAge: nat): Result<Oracle> {
    if asset == 0 then Failure(InvalidAsset) else
    if maxPriceAge == 0 then Failure(InvalidMaxPriceAge) else
    if asset in oracle then Failure(AssetAlreadyRegistered) else
    Success(oracle[asset := AssetPrice(0, 0, maxPriceAge, 0)])
  }

  function SetPrice(oracle: Oracle, now: nat, asset: Address, price: nat): Result<Oracle> {
    if asset !in oracle then Failure(UnsupportedAsset) else
    if price == 0 then Failure(InvalidPrice) else
    Success(oracle[asset := oracle[asset].(price := price, updatedAt := now)])
  }

  function PublishPrice(oracle: Oracle, now: nat, asset: Address, price: nat, reportedAt: nat, roundId: nat)
    : Result<Oracle>
  {
    if asset !in oracle then Failure(UnsupportedAsset) else
    if price == 0 then Failure(InvalidPrice) else
    if reportedAt > now then Failure(InvalidReportTimestamp) else
    if now - reportedAt > oracle[asset].maxPriceAge then Failure(StaleReport) else
    if roundId <= oracle[asset].latestRoundId then Failure(InvalidRound(oracle[asset].latestRoundId, roundId)) else
    Success(oracle[asset := oracle[asset].(price := price, updatedAt := reportedAt, latestRoundId := roundId)])
  }

  function PoolCall(m: Market, c: Chain, tx: Tx): Result<Step>
    requires !tx.call.RegisterAssetCall? && !tx.call.SetPriceCall? && !tx.call.PublishPriceCall?
  {
    var prices := PricesAt(m, c.oracle, tx.now);
    match tx.call
    case AccrueCall => AccrueInterest(c.pool, tx.now)
    case SupplyCall(sender, asset, amount) => Supply(m, c.pool, tx.now, sender, asset, amount)
    case BorrowCall(sender, asset, amount) => Borrow(m, c.pool, prices, tx.now, sender, asset, amount)
    case RepayCall(sender, asset, amount) => Repay(m, c.pool, tx.now, sender, asset, amount)
    case WithdrawCall(sender, asset, amount) => Withdraw(m, c.pool, prices, tx.now, sender, asset, amount)
    case LiquidateCall(sender, borrower, debtAsset, collateralAsset, requestedRepay, minOut) =>
      Liquidate(m, c.pool, prices, tx.now, sender, borrower, debtAsset, collateralAsset, requestedRepay, minOut)
    case ExecuteLiquidationCall(borrower, liquidator, repaidAmount, seized) =>
      ExecuteLiquidation(m, c.pool, tx.now, borrower, liquidator, repaidAmount, seized)
  }

  function Transact(m: Market, c: Chain, tx: Tx): Result<Outcome> {
    match tx.call
    case RegisterAssetCall(asset, maxPriceAge) =>
      var oracle :- RegisterAsset(c.oracle, asset, maxPriceAge);
      Success(Outcome(c.(oracle := oracle), [AssetRegistered(asset, maxPriceAge)]))
    case SetPriceCall(asset, price) =>
      var oracle :- SetPrice(c.oracle, tx.now, asset, price);
      Success(Outcome(c.(oracle := oracle), [PriceUpdated(asset, price, tx.now)]))
    case PublishPriceCall(asset, price, reportedAt, roundId) =>
      var oracle :- PublishPrice(c.oracle, tx.now, asset, price, reportedAt, roundId);
      Success(Outcome(c.(oracle := oracle),
                      [PriceUpdated(asset, price, reportedAt), PricePublished(asset, price, reportedAt, roundId)]))
    case _ =>
      var step :- PoolCall(m, c, tx);
      Success(Outcome(c.(pool := step.after), step.events))
  }

  /** A reverted transaction changes nothing and emits nothing. */
  function Next(m: Market, c: Chain, tx: Tx): Outcome {
    match Transact(m, c, tx)
    case Success(outcome) => outcome
    case Failure(_) => Outcome(c, [])
  }

  function Genesis(deployedAt: nat): Chain {
    Chain(Deployed(deployedAt), map[])
  }

  /** The state after a run of transactions and all the events it emitted. */
  function Run(m: Market, c: Chain, txs: seq<Tx>): Outcome {
    if txs == [] then Outcome(c, []) else
    var before := Run(m, c, txs[..|txs| - 1]);
    var last := Next(m, before.after, txs[|txs| - 1]);
    Outcome(last.after, before.events + last.events)
  }

  // Every transaction is an accrual followed by one change of the books ----------------------

  /** The storage a pool transaction works on once interest is accrued. */
  ghost function Accrued(p: Storage, now: nat): Storage {
    match AccrueInterest(p, now)
    case Success(step) => step.after
    case Failure(_) => p
  }

  lemma AccruedBooks(p: Storage, now: nat)
    requires Books(p) && AccrueInterest(p, now).Success?
    ensures var q := Accrued(p, now);
            && Books(q) && Gap(q) == Gap(p) && q.lastUpdate == now
            && p.borrowIndex <= q.borrowIndex && p.liquidityIndex <= q.liquidityIndex
            && q.collateral == p.collateral && q.deposits == p.deposits && q.debts == p.debts
            && q.available == p.available && q.badDebt == p.badDebt
  {
    hide Floor, Ceil, AccrueInterest;
    assert p.lastUpdate <= now by { TimeMovesForward(p, now); }
    AccrualIsSound(p, now);
  }

  lemma TimeMovesForward(p: Storage, now: nat)
    requires AccrueInterest(p, now).Success?
    ensures p.lastUpdate <= now
  {
  }

  /** Calls that touch a borrower's debt, and so round one borrower against the total. */
  predicate TouchesDebt(call: Call) {
    call.BorrowCall? || call.RepayCall? || call.LiquidateCall? || call.ExecuteLiquidationCall?
  }

  lemma GapMovesByAtMostOne(m: Market, c: Chain, tx: Tx)
    requires Books(c.pool)
    ensures Books(Next(m, c, tx).after.pool)
    ensures var d := Gap(Next(m, c, tx).after.pool) - Gap(c.pool);
            if TouchesDebt(tx.call) && Transact(m, c, tx).Success? then -1 <= d <= 1 else d == 0
  {
    hide Floor, Ceil, AccrueInterest, SupplyUsdc, SupplyWeth, WithdrawUsdc, WithdrawWeth, BorrowUsdc, RepayUsdc,
         SeizeCollateral, CalculateLiquidation, ValidatedPosition, ScaledDebtBurn, ReduceDebt, Gap;
    if Transact(m, c, tx).Success? {
      if !(tx.call.RegisterAssetCall? || tx.call.SetPriceCall? || tx.call.PublishPriceCall?) {
        AccruedBooks(c.pool, tx.now);
        var p := Accrued(c.pool, tx.now);
        var prices := PricesAt(m, c.oracle, tx.now);
        match tx.call {
          case SupplyCall(sender, asset, amount) =>
            if asset == m.usdc { SupplyUsdcEffect(p, sender, amount); }
            else { CollateralEffect(p, prices, sender, amount); }
          case WithdrawCall(sender, asset, amount) =>
            if asset == m.usdc { WithdrawUsdcEffect(p, sender, amount); }
            else { CollateralEffect(p, prices, sender, amount); }
          case BorrowCall(sender, asset, amount) =>
            BorrowEffect(p, prices, sender, amount);
          case RepayCall(sender, asset, amount) =>
            RepayEffect(p, sender, amount);
            ReduceDebtEffect(p, sender, RepayUsdc(p, sender, amount).value.repaidAmount);
          case LiquidateCall(sender, borrower, _, _, requestedRepay, _) =>
            var position := ValidatedPosition(c.pool, prices, tx.now, borrower).value;
            var sizing := CalculateLiquidation(prices, position.debt, position.collateral, requestedRepay).value;
            SeizeEffect(p, borrower, sizing.repaidAmount, sizing.collateralSeized);
          case ExecuteLiquidationCall(borrower, _, repaid, seized) =>
            SeizeEffect(p, borrower, repaid, seized);
          case _ =>
        }
      }
    }
  }

  lemma {:induction false} BooksAlways(m: Market, deployedAt: nat, txs: seq<Tx>)
    ensures Books(Run(m, Genesis(deployedAt), txs).after.pool)
  {
    hide Next;
    if txs == [] {
    } else {
      BooksAlways(m, deployedAt, txs[..|txs| - 1]);
      GapMovesByAtMostOne(m, Run(m, Genesis(deployedAt), txs[..|txs| - 1]).after, txs[|txs| - 1]);
    }
  }

  // When interest accrues ----------------------------------------------------------------------

  ghost predicate Accrues(events: seq<Event>) {
    exists e :: e in events && e.InterestAccrued?
  }

  lemma AccruesSplit(a: seq<Event>, b: seq<Event>)
    ensures Accrues(a + b) <==> Accrues(a) || Accrues(b)
  {
    assert forall e :: e in a + b <==> e in a || e in b;
  }

  lemma AccrualEvent(p: Storage, now: nat)
    requires AccrueInterest(p, now).Success?
    ensures var step := AccrueInterest(p, now).value;
            if now == p.lastUpdate then step == Step(p, [])
            else p.lastUpdate < now && |step.events| == 1 && step.events[0].InterestAccrued?
  {
    hide InterestSplit;
  }

  /** The same indices, and the same time they were computed for. */
  predicate SameIndices(p: Storage, q: Storage) {
    q.borrowIndex == p.borrowIndex && q.liquidityIndex == p.liquidityIndex && q.lastUpdate == p.lastUpdate
  }

  lemma OperationsKeepIndices(p: Storage, prices: Prices, user: Address, amount: nat, seized: nat)
    ensures SupplyUsdc(p, user, amount).Success? ==> SameIndices(p, SupplyUsdc(p, user, amount).value)
    ensures SupplyWeth(p, user, amount).Success? ==> SameIndices(p, SupplyWeth(p, user, amount).value)
    ensures WithdrawUsdc(p, user, amount).Success? ==> SameIndices(p, WithdrawUsdc(p, user, amount).value)
    ensures WithdrawWeth(p, prices, user, amount).Success? ==>
        SameIndices(p, WithdrawWeth(p, prices, user, amount).value)
    ensures BorrowUsdc(p, prices, user, amount).Success? ==> SameIndices(p, BorrowUsdc(p, prices, user, amount).value)
    ensures RepayUsdc(p, user, amount).Success? ==> SameIndices(p, RepayUsdc(p, user, amount).value.after)
    ensures SeizeCollateral(p, user, amount, seized).Success? ==>
              SameIndices(p, SeizeCollateral(p, user, amount, seized).value.after)
  {
    hide MulDivDown, MulDivUp, HealthFactor, MaxBorrow, DebtValue, ScaledDebtBurn;
  }

  /** The indices move only with an accrual event, which is emitted exactly when a pool call finds time passed. */
  lemma NextWithoutAccrual(m: Market, c: Chain, tx: Tx)
    ensures !Accrues(Next(m, c, tx).events) ==> SameIndices(c.pool, Next(m, c, tx).after.pool)
    ensures Accrues(Next(m, c, tx).events) ==> c.pool.lastUpdate < tx.now
  {
    hide AccrueInterest, SupplyUsdc, SupplyWeth, WithdrawUsdc, WithdrawWeth, BorrowUsdc, RepayUsdc, SeizeCollateral,
         CalculateLiquidation, ValidatedPosition, SameIndices;
    SameIndicesItself(c.pool);
    if Transact(m, c, tx).Success?
       && !(tx.call.RegisterAssetCall? || tx.call.SetPriceCall? || tx.call.PublishPriceCall?)
    {
      AccrualEvent(c.pool, tx.now);
      var p, prices := Accrued(c.pool, tx.now), PricesAt(m, c.oracle, tx.now);
      var accrual := AccrueInterest(c.pool, tx.now).value.events;
      assert accrual != [] ==> Next(m, c, tx).events[0] == accrual[0];
      match tx.call {
        case SupplyCall(sender, _, amount) => OperationsKeepIndices(p, prices, sender, amount, 0);
        case WithdrawCall(sender, _, amount) => OperationsKeepIndices(p, prices, sender, amount, 0);
        case BorrowCall(sender, _, amount) => OperationsKeepIndices(p, prices, sender, amount, 0);
        case RepayCall(sender, _, amount) => OperationsKeepIndices(p, prices, sender, amount, 0);
        case LiquidateCall(_, borrower, _, _, requestedRepay, _) =>
          var position := ValidatedPosition(c.pool, prices, tx.now, borrower).value;
          var sizing := CalculateLiquidation(prices, position.debt, position.collateral, requestedRepay).value;
          OperationsKeepIndices(p, prices, borrower, sizing.repaidAmount, sizing.collateralSeized);
        case ExecuteLiquidationCall(borrower, _, repaid, seized) =>
          OperationsKeepIndices(p, prices, borrower, repaid, seized);
        case _ =>
      }
    }
  }

  lemma SameIndicesItself(p: Storage)
    ensures SameIndices(p, p)
  {
  }

  /** A run within the deployment block never accrues. */
  lemma {:induction false} DeploymentBlockNeverAccrues(m: Market, deployedAt: nat, txs: seq<Tx>)
    requires forall tx :: tx in txs ==> tx.now == deployedAt
    ensures !Accrues(Run(m, Genesis(deployedAt), txs).events)
    ensures Run(m, Genesis(deployedAt), txs).after.pool.lastUpdate == deployedAt
  {
    if txs != [] {
      hide Next, Accrues;
      var mid := Run(m, Genesis(deployedAt), txs[..|txs| - 1]);
      DeploymentBlockNeverAccrues(m, deployedAt, txs[..|txs| - 1]);
      NextWithoutAccrual(m, mid.after, txs[|txs| - 1]);
      AccruesSplit(mid.events, Next(m, mid.after, txs[|txs| - 1]).events);
    }
  }
}
