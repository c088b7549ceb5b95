/** Which positions are reachable, and what the manager asks of the pool, over whole runs. */
module Positions {
  import opened Results
  import opened FixedPoint
  import opened Ledgers
  import opened RiskManager
  import opened Pool
  import opened LiquidationManager
  import opened PoolEffects
  import opened Protocol

  /** Performing debt is at least one USDC and has collateral behind it. */
  ghost predicate Backed(p: Storage, user: Address) {
    p.debts.BalanceOf(user) > 0 ==>
      p.collateral.BalanceOf(user) > 0 && UserDebt(p, user) >= MINIMUM_USDC_BORROW
  }

  ghost predicate AllBacked(p: Storage) {
    forall user :: Backed(p, user)
  }

  /** Accrual only raises debts. */
  lemma AccruedBacked(p: Storage, now: nat)
    requires Books(p) && AllBacked(p) && AccrueInterest(p, now).Success?
    ensures AllBacked(Accrued(p, now))
  {
    hide Floor, Ceil, AccrueInterest;
    AccruedBooks(p, now);
    var q := Accrued(p, now);
    forall user
      ensures Backed(q, user)
    {
      assert Backed(p, user);
      CeilMono(p.debts.BalanceOf(user), p.borrowIndex, p.debts.BalanceOf(user), q.borrowIndex, RAY);
    }
  }

  /** The debt the manager sizes against is the debt the pool finds after accruing in the same block. */
  lemma ManagerReadsAccruedDebt(p: Storage, now: nat, user: Address)
    requires Books(p) && AccrueInterest(p, now).Success? && UsdcDebt(p, now, user).Success?
    ensures UsdcDebt(p, now, user).value == UserDebt(Accrued(p, now), user)
  {
    hide Floor, Ceil;
  }

  /** And so is the whole position it validates. */
  lemma ManagerReadsAccruedPosition(p: Storage, prices: Prices, now: nat, borrower: Address)
    requires Books(p) && AccrueInterest(p, now).Success? && ValidatedPosition(p, prices, now, borrower).Success?
    ensures var position := ValidatedPosition(p, prices, now, borrower).value;
            && 0 < position.debt == UserDebt(Accrued(p, now), borrower) <= MAX_UINT256
            && 0 < position.collateral == Accrued(p, now).collateral.BalanceOf(borrower)
  {
    hide Floor, Ceil, AccrueInterest, ProjectedIndices, HealthFactor;
    AccruedBooks(p, now);
    ManagerReadsAccruedDebt(p, now, borrower);
  }

  lemma BorrowBacked(p: Storage, prices: Prices, sender: Address, amount: nat)
    requires Books(p) && AllBacked(p) && prices.Positive() && amount >= MINIMUM_USDC_BORROW
    requires BorrowUsdc(p, prices, sender, amount).Success?
    ensures AllBacked(BorrowUsdc(p, prices, sender, amount).value)
  {
    hide Floor, Ceil, BorrowUsdc;
    BorrowEffect(p, prices, sender, amount);
    MintEffect(p.debts, sender, Ceil(amount, RAY, p.borrowIndex));
    var q := BorrowUsdc(p, prices, sender, amount).value;
    forall user
      ensures Backed(q, user)
    {
      assert Backed(p, user);
    }
  }

  lemma RepayBacked(p: Storage, sender: Address, amount: nat)
    requires Books(p) && AllBacked(p) && RepayUsdc(p, sender, amount).Success?
    ensures AllBacked(RepayUsdc(p, sender, amount).value.after)
  {
    hide Floor, Ceil, RepayUsdc, ScaledDebtBurn;
    RepayEffect(p, sender, amount);
    var r := RepayUsdc(p, sender, amount).value;
    ReduceDebtEffect(p, sender, r.repaidAmount);
    DebtBurnEffect(p, sender, r.repaidAmount);
    BurnEffect(p.debts, sender, ScaledDebtBurn(p, p.debts.BalanceOf(sender), r.repaidAmount).value.scaledBurn);
    forall user
      ensures Backed(r.after, user)
    {
      assert Backed(p, user);
    }
  }

  lemma WithdrawWethBacked(p: Storage, prices: Prices, sender: Address, amount: nat)
    requires Books(p) && AllBacked(p) && prices.Positive() && WithdrawWeth(p, prices, sender, amount).Success?
    ensures AllBacked(WithdrawWeth(p, prices, sender, amount).value)
  {
    hide Floor, Ceil, HealthFactor, CollateralValue;
    CollateralEffect(p, prices, sender, amount);
    var q := WithdrawWeth(p, prices, sender, amount).value;
    forall user
      ensures Backed(q, user)
    {
      assert Backed(p, user);
      if user == sender && p.debts.BalanceOf(user) > 0 && q.collateral.BalanceOf(user) == 0 {
        DebtNeedsCollateral(prices, UserDebt(p, user));
      }
    }
  }

  /** A liquidation sized by the manager leaves either no debt or a backed one. */
  lemma SeizureBacked(p: Storage, borrower: Address, repaid: nat, seized: nat)
    requires Books(p) && AllBacked(p) && SeizeCollateral(p, borrower, repaid, seized).Success?
    requires seized == p.collateral.BalanceOf(borrower)
             || repaid == UserDebt(p, borrower)
             || UserDebt(p, borrower) - repaid >= MINIMUM_USDC_BORROW
    ensures AllBacked(SeizeCollateral(p, borrower, repaid, seized).value.after)
  {
    hide Floor, Ceil, SeizeCollateral, ScaledDebtBurn;
    SeizeEffect(p, borrower, repaid, seized);
    var balance := p.debts.BalanceOf(borrower);
    var burn := ScaledDebtBurn(p, balance, repaid).value;
    DebtBurnEffect(p, borrower, repaid);
    BurnEffect(p.collateral, borrower, seized);
    var mid := ReduceDebt(p, borrower, UserDebt(p, borrower), repaid, burn).value;
    BurnEffect(p.debts, borrower, burn.scaledBurn);
    BurnEffect(mid.debts, borrower, mid.debts.BalanceOf(borrower));
    var q := SeizeCollateral(p, borrower, repaid, seized).value.after;
    forall user
      ensures Backed(q, user)
    {
      assert Backed(p, user);
    }
  }

  /** From backed positions the manager's sizing always fits: the pool's two liquidation limits are
      unreachable, and what the pool executes leaves no unbacked remainder. */
  lemma ManagerFitsPool(p: Storage, prices: Prices, now: nat, borrower: Address, requestedRepay: nat)
    requires Books(p) && AllBacked(p) && prices.Positive()
    requires ValidatedPosition(p, prices, now, borrower).Success?
    requires AccrueInterest(p, now).Success?
    ensures var position := ValidatedPosition(p, prices, now, borrower).value;
            var q := Accrued(p, now);
            && position.debt == UserDebt(q, borrower) >= MINIMUM_USDC_BORROW
            && position.collateral == q.collateral.BalanceOf(borrower)
            && var sizing := CalculateLiquidation(prices, position.debt, position.collateral, requestedRepay);
               sizing.Success? ==>
                 var s := sizing.value;
                 && s.repaidAmount <= UserDebt(q, borrower)
                 && s.collateralSeized <= q.collateral.BalanceOf(borrower)
                 && (s.collateralSeized == q.collateral.BalanceOf(borrower)
                     || s.repaidAmount == UserDebt(q, borrower)
                     || UserDebt(q, borrower) - s.repaidAmount >= MINIMUM_USDC_BORROW)
  {
    hide Floor, Ceil, AccrueInterest, CalculateLiquidation, ProjectedIndices;
    AccruedBooks(p, now);
    AccruedBacked(p, now);
    ManagerReadsAccruedPosition(p, prices, now, borrower);
    var position := ValidatedPosition(p, prices, now, borrower).value;
    assert Backed(Accrued(p, now), borrower);
    ZeroProduct(Accrued(p, now).borrowIndex, RAY);
    if CalculateLiquidation(prices, position.debt, position.collateral, requestedRepay).Success? {
      SizingFitsPosition(prices, position.debt, position.collateral, requestedRepay);
    }
  }

  /** The pool's two checks on an executed liquidation. */
  predicate ExceedsPosition(e: Error) {
    e.LiquidationExceedsDebt? || e.LiquidationExceedsCollateral?
  }

  /** From backed positions no call to the manager ever meets the pool's exceeds-debt or
      exceeds-collateral revert. */
  lemma LiquidationLimitsUnreachable(m: Market, c: Chain, tx: Tx)
    requires Books(c.pool) && AllBacked(c.pool) && tx.call.LiquidateCall?
    ensures var r := Transact(m, c, tx);
            r.Failure? ==> !ExceedsPosition(r.error)
  {
    hide Floor, Ceil, AccrueInterest, CalculateLiquidation, ValidatedPosition, SeizeCollateral;
    var prices := PricesAt(m, c.oracle, tx.now);
    var call := tx.call;
    OnlySeizureChecksLimits(m, c, tx.now, call.borrower);
    if ValidatedPosition(c.pool, prices, tx.now, call.borrower).Success? {
      var position := ValidatedPosition(c.pool, prices, tx.now, call.borrower).value;
      SizingNeverChecksLimits(m, c.oracle, tx.now, position, call.requestedRepay);
      var sizing := CalculateLiquidation(prices, position.debt, position.collateral, call.requestedRepay);
      if sizing.Success? && AccrueInterest(c.pool, tx.now).Success? {
        ManagerFitsPool(c.pool, prices, tx.now, call.borrower, call.requestedRepay);
        SeizeLimits(Accrued(c.pool, tx.now), call.borrower, sizing.value.repaidAmount, sizing.value.collateralSeized);
      }
    }
  }

  lemma SeizeLimits(p: Storage, borrower: Address, repaid: nat, seized: nat)
    requires repaid <= UserDebt(p, borrower) && seized <= p.collateral.BalanceOf(borrower)
    ensures var r := SeizeCollateral(p, borrower, repaid, seized);
            r.Failure? ==> !ExceedsPosition(r.error)
  {
    hide Floor, Ceil;
  }

  lemma OnlySeizureChecksLimits(m: Market, c: Chain, now: nat, borrower: Address)
    ensures var r := AccrueInterest(c.pool, now);
            r.Failure? ==> !ExceedsPosition(r.error)
    ensures var r := ValidatedPosition(c.pool, PricesAt(m, c.oracle, now), now, borrower);
            r.Failure? ==> !ExceedsPosition(r.error)
  {
    hide Floor, Ceil, ProjectedIndices;
    ProjectionNeverChecksLimits(c.pool, now);
  }

  lemma ProjectionNeverChecksLimits(p: Storage, now: nat)
    ensures ProjectedIndices(p, now).Failure? ==> !ExceedsPosition(ProjectedIndices(p, now).error)
  {
    hide Floor, Ceil, MaximumLiquidityIndex;
    CapNeverChecksLimits();
  }

  lemma CapNeverChecksLimits()
    ensures forall s: nat, t: nat :: MaximumLiquidityIndex(s, t).Failure? ==>
                                       !ExceedsPosition(MaximumLiquidityIndex(s, t).error)
  {
    hide Floor;
  }

  lemma SizingNeverChecksLimits(m: Market, oracle: Oracle, now: nat, position: Position, requestedRepay: nat)
    ensures var r := CalculateLiquidation(PricesAt(m, oracle, now), position.debt, position.collateral, requestedRepay);
            r.Failure? ==> !ExceedsPosition(r.error)
  {
    hide Floor, Ceil;
  }

  // Whole runs -----------------------------------------------------------------------------

  lemma BackedKept(m: Market, c: Chain, tx: Tx)
    requires Books(c.pool) && AllBacked(c.pool) && !tx.call.ExecuteLiquidationCall?
    ensures AllBacked(Next(m, c, tx).after.pool)
  {
    hide Floor, Ceil, AccrueInterest, SupplyUsdc, SupplyWeth, WithdrawUsdc, WithdrawWeth, BorrowUsdc, RepayUsdc,
         SeizeCollateral, CalculateLiquidation, ValidatedPosition, AllBacked;
    if Transact(m, c, tx).Success?
       && !(tx.call.RegisterAssetCall? || tx.call.SetPriceCall? || tx.call.PublishPriceCall?)
    {
      AccruedBooks(c.pool, tx.now);
      AccruedBacked(c.pool, tx.now);
      var p := Accrued(c.pool, tx.now);
      var prices := PricesAt(m, c.oracle, tx.now);
      match tx.call {
        case SupplyCall(sender, asset, amount) =>
          if asset == m.usdc { SupplyUsdcEffect(p, sender, amount); }
          else { CollateralEffect(p, prices, sender, amount); }
          MoreCollateralBacked(p, Next(m, c, tx).after.pool);
        case WithdrawCall(sender, asset, amount) =>
          if asset == m.usdc {
            WithdrawUsdcEffect(p, sender, amount);
            MoreCollateralBacked(p, Next(m, c, tx).after.pool);
          } else {
            WithdrawWethBacked(p, prices, sender, amount);
          }
        case BorrowCall(sender, asset, amount) =>
          BorrowBacked(p, prices, sender, amount);
        case RepayCall(sender, asset, amount) =>
          RepayBacked(p, sender, amount);
        case LiquidateCall(sender, borrower, _, _, requestedRepay, _) =>
          var position := ValidatedPosition(c.pool, prices, tx.now, borrower).value;
          var sizing := CalculateLiquidation(prices, position.debt, position.collateral, requestedRepay).value;
          ManagerFitsPool(c.pool, prices, tx.now, borrower, requestedRepay);
          SeizureBacked(p, borrower, sizing.repaidAmount, sizing.collateralSeized);
        case _ =>
      }
    }
  }

  lemma MoreCollateralBacked(p: Storage, q: Storage)
    requires AllBacked(p) && q.debts == p.debts && q.borrowIndex == p.borrowIndex
    requires forall a :: p.collateral.BalanceOf(a) <= q.collateral.BalanceOf(a)
    ensures AllBacked(q)
  {
    hide Ceil;
    forall user
      ensures Backed(q, user)
    {
      assert Backed(p, user);
    }
  }

  /** When only the liquidation manager liquidates, every reachable account with performing debt has
      collateral and owes at least one USDC. */
  lemma {:induction false} ReachablePositionsAreBacked(m: Market, deployedAt: nat, txs: seq<Tx>)
    requires forall tx :: tx in txs ==> !tx.call.ExecuteLiquidationCall?
    ensures AllBacked(Run(m, Genesis(deployedAt), txs).after.pool)
  {
    hide Next, Books;
    if txs != [] {
      var before := txs[..|txs| - 1];
      ReachablePositionsAreBacked(m, deployedAt, before);
      BooksAlways(m, deployedAt, before);
      BackedKept(m, Run(m, Genesis(deployedAt), before).after, txs[|txs| - 1]);
    }
  }
}
