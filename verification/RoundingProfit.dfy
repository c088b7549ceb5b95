/** Nobody profits from rounding: what a borrower owes and what a supplier can claim, against the
    amounts that actually changed hands in a run. */
module RoundingProfit {
  import opened Results
  import opened FixedPoint
  import opened Ledgers
  import opened RiskManager
  import opened Pool
  import opened LiquidationManager
  import opened PoolEffects
  import opened Protocol

  /** What an event adds to `user`'s principal: borrowed, less repaid, liquidated and written off. */
  function OwedBy(e: Event, user: Address): int {
    match e
    case Borrowed(u, _, amount) => if u == user then amount else 0
    case Repaid(u, _, amount, _) => if u == user then 0 - amount else 0
    case Liquidated(_, b, _, _, repaid, _) => if b == user then 0 - repaid else 0
    case BadDebtRecognized(b, amount) => if b == user then 0 - amount else 0
    case _ => 0
  }

  /** What an event adds to `user`'s net USDC deposits: supplied, less withdrawn. */
  function DepositedBy(m: Market, e: Event, user: Address): int {
    match e
    case Supplied(u, asset, amount) => if u == user && asset == m.usdc then amount else 0
    case Withdrawn(u, asset, amount) => if u == user && asset == m.usdc then 0 - amount else 0
    case _ => 0
  }

  function Owed(events: seq<Event>, user: Address): int {
    if events == [] then 0 else Owed(events[..|events| - 1], user) + OwedBy(events[|events| - 1], user)
  }

  function Deposited(m: Market, events: seq<Event>, user: Address): int {
    if events == [] then 0 else
    Deposited(m, events[..|events| - 1], user) + DepositedBy(m, events[|events| - 1], user)
  }

  lemma {:induction false} FlowsAdd(m: Market, xs: seq<Event>, ys: seq<Event>, user: Address)
    ensures Owed(xs + ys, user) == Owed(xs, user) + Owed(ys, user)
    ensures Deposited(m, xs + ys, user) == Deposited(m, xs, user) + Deposited(m, ys, user)
    decreases |ys|
  {
    if ys == [] {
      assert xs + ys == xs;
    } else {
      var init := ys[..|ys| - 1];
      assert (xs + ys)[..|xs + ys| - 1] == xs + init;
      FlowsAdd(m, xs, init, user);
    }
  }

  /** An accrual moves no principal. */
  lemma AccrualFlows(m: Market, p: Storage, now: nat, rest: seq<Event>, user: Address)
    requires Books(p) && AccrueInterest(p, now).Success?
    ensures Owed(AccrueInterest(p, now).value.events + rest, user) == Owed(rest, user)
    ensures Deposited(m, AccrueInterest(p, now).value.events + rest, user) == Deposited(m, rest, user)
  {
    var events := AccrueInterest(p, now).value.events;
    FlowsAdd(m, events, rest, user);
    if events != [] {
      assert events[..0] == [];
    }
  }

  lemma OneEvent(m: Market, e: Event, user: Address)
    ensures Owed([e], user) == OwedBy(e, user) && Deposited(m, [e], user) == DepositedBy(m, e, user)
  {
    assert [e][..0] == [];
  }

  lemma TwoEvents(m: Market, e: Event, f: Event, user: Address)
    ensures Owed([e, f], user) == OwedBy(e, user) + OwedBy(f, user)
    ensures Owed([e] + [f], user) == OwedBy(e, user) + OwedBy(f, user)
    ensures Deposited(m, [e] + [f], user) == DepositedBy(m, e, user) + DepositedBy(m, f, user)
  {
    OneEvent(m, e, user);
    OneEvent(m, f, user);
    FlowsAdd(m, [e], [f], user);
    assert [e, f] == [e] + [f];
  }

  /** A user's debt and claim in RAY units, without rounding. */
  ghost function ExactDebt(p: Storage, user: Address): nat {
    p.debts.BalanceOf(user) * p.borrowIndex
  }

  ghost function ExactClaim(p: Storage, user: Address): nat {
    p.deposits.BalanceOf(user) * p.liquidityIndex
  }

  lemma AccrualRaisesDebt(p: Storage, now: nat, user: Address)
    requires Books(p) && AccrueInterest(p, now).Success?
    ensures ExactDebt(p, user) <= ExactDebt(Accrued(p, now), user)
    ensures p.liquidityIndex <= Accrued(p, now).liquidityIndex
    ensures Accrued(p, now).liquidityIndex == p.liquidityIndex ==>
              ExactClaim(Accrued(p, now), user) == ExactClaim(p, user)
  {
    hide AccrueInterest;
    AccruedBooks(p, now);
    MulMono(p.borrowIndex, Accrued(p, now).borrowIndex, p.debts.BalanceOf(user));
  }

  /** Replacing scaled units s by t at one index: the exact value moves by the index times the difference. */
  lemma ExactDifference(s: int, d: int, index: int)
    ensures (s + d) * index == s * index + d * index
    ensures (s - d) * index == s * index - d * index
  {
  }

  lemma BorrowKeepsPrincipal(p: Storage, prices: Prices, sender: Address, amount: nat, user: Address)
    requires Books(p) && prices.Positive() && BorrowUsdc(p, prices, sender, amount).Success?
    ensures var q := BorrowUsdc(p, prices, sender, amount).value;
            ExactDebt(q, user) >= ExactDebt(p, user) + (if user == sender then amount * RAY else 0)
  {
    hide Floor, Ceil, BorrowUsdc;
    BorrowEffect(p, prices, sender, amount);
    var minted := Ceil(amount, RAY, p.borrowIndex);
    MintEffect(p.debts, sender, minted);
    ExactDifference(p.debts.BalanceOf(sender), minted, p.borrowIndex);
  }

  lemma BurnKeepsPrincipal(p: Storage, user: Address, repayment: nat)
    requires Books(p) && ScaledDebtBurn(p, p.debts.BalanceOf(user), repayment).Success?
    requires repayment <= UserDebt(p, user)
    ensures var burn := ScaledDebtBurn(p, p.debts.BalanceOf(user), repayment).value;
            && burn.scaledBurn <= p.debts.BalanceOf(user)
            && (p.debts.BalanceOf(user) - burn.scaledBurn) * p.borrowIndex >= ExactDebt(p, user) - repayment * RAY
  {
    hide Floor, Ceil, ScaledDebtBurn;
    DebtBurnEffect(p, user, repayment);
    CeilBounds(p.debts.BalanceOf(user), p.borrowIndex, RAY);
    ExactDifference(p.debts.BalanceOf(user),
                    ScaledDebtBurn(p, p.debts.BalanceOf(user), repayment).value.scaledBurn, p.borrowIndex);
  }

  lemma RepayKeepsPrincipal(p: Storage, sender: Address, amount: nat, user: Address)
    requires Books(p) && RepayUsdc(p, sender, amount).Success?
    ensures var r := RepayUsdc(p, sender, amount).value;
            ExactDebt(r.after, user) >= ExactDebt(p, user) - (if user == sender then r.repaidAmount * RAY else 0)
  {
    hide Floor, Ceil, RepayUsdc, ScaledDebtBurn;
    RepayEffect(p, sender, amount);
    var r := RepayUsdc(p, sender, amount).value;
    ReduceDebtEffect(p, sender, r.repaidAmount);
    BurnKeepsPrincipal(p, sender, r.repaidAmount);
    BurnEffect(p.debts, sender, ScaledDebtBurn(p, p.debts.BalanceOf(sender), r.repaidAmount).value.scaledBurn);
  }

  lemma SeizureKeepsPrincipal(p: Storage, borrower: Address, repaid: nat, seized: nat, user: Address)
    requires Books(p) && SeizeCollateral(p, borrower, repaid, seized).Success?
    ensures var r := SeizeCollateral(p, borrower, repaid, seized).value;
            ExactDebt(r.after, user) >=
            ExactDebt(p, user) - (if user == borrower then (repaid + r.recognizedBadDebt) * RAY else 0)
  {
    hide Floor, Ceil, SeizeCollateral, ScaledDebtBurn;
    SeizeEffect(p, borrower, repaid, seized);
    var burn := ScaledDebtBurn(p, p.debts.BalanceOf(borrower), repaid).value;
    var mid := ReduceDebt(p, borrower, UserDebt(p, borrower), repaid, burn).value;
    BurnKeepsPrincipal(p, borrower, repaid);
    DebtBurnEffect(p, borrower, repaid);
    BurnEffect(p.debts, borrower, burn.scaledBurn);
    BurnEffect(mid.debts, borrower, mid.debts.BalanceOf(borrower));
    CeilBounds(p.debts.BalanceOf(borrower) - burn.scaledBurn, p.borrowIndex, RAY);
    assert (repaid + burn.remainingDebt) * RAY == repaid * RAY + burn.remainingDebt * RAY;
  }

  lemma SupplierKeepsPrincipal(p: Storage, sender: Address, amount: nat, user: Address)
    requires Books(p)
    ensures SupplyUsdc(p, sender, amount).Success? ==>
              ExactClaim(SupplyUsdc(p, sender, amount).value, user) <=
              ExactClaim(p, user) + (if user == sender then amount * RAY else 0)
    ensures WithdrawUsdc(p, sender, amount).Success? ==>
              ExactClaim(WithdrawUsdc(p, sender, amount).value, user) <=
              ExactClaim(p, user) - (if user == sender then amount * RAY else 0)
  {
    hide Floor, Ceil, SupplyUsdc, WithdrawUsdc;
    var balance := p.deposits.BalanceOf(sender);
    if SupplyUsdc(p, sender, amount).Success? {
      SupplyUsdcEffect(p, sender, amount);
      var minted := Floor(amount, RAY, p.liquidityIndex);
      MintEffect(p.deposits, sender, minted);
      ExactDifference(balance, minted, p.liquidityIndex);
    }
    if WithdrawUsdc(p, sender, amount).Success? {
      WithdrawUsdcEffect(p, sender, amount);
      var burnt := if amount == Floor(balance, p.liquidityIndex, RAY) then balance
                   else Ceil(amount, RAY, p.liquidityIndex);
      BurnEffect(p.deposits, sender, burnt);
      ExactDifference(balance, burnt, p.liquidityIndex);
    }
  }

  /** One transaction: exact debt grows at least by the principal the events report; at an unchanged
      index the exact claim grows at most by the deposits they report. */
  lemma TransactionGivesNoProfit(m: Market, c: Chain, tx: Tx, user: Address)
    requires Books(c.pool)
    ensures var next := Next(m, c, tx);
            && ExactDebt(next.after.pool, user) >= ExactDebt(c.pool, user) + Owed(next.events, user) * RAY
            && c.pool.liquidityIndex <= next.after.pool.liquidityIndex
            && (next.after.pool.liquidityIndex == c.pool.liquidityIndex ==>
                  ExactClaim(next.after.pool, user) <= ExactClaim(c.pool, user) + Deposited(m, next.events, user) * RAY)
  {
    hide Floor, Ceil, AccrueInterest, SupplyUsdc, SupplyWeth, WithdrawUsdc, WithdrawWeth, BorrowUsdc, RepayUsdc,
         SeizeCollateral, CalculateLiquidation, ValidatedPosition, ExactDebt, ExactClaim, Owed, Deposited;
    if Transact(m, c, tx).Success? {
      if tx.call.RegisterAssetCall? || tx.call.SetPriceCall? || tx.call.PublishPriceCall? {
        OracleFlows(m, Next(m, c, tx).events, user);
      } else {
        PoolGivesNoProfit(m, c, tx, user);
      }
    } else {
      OracleFlows(m, [], user);
    }
  }

  /** Oracle events move no principal. */
  lemma {:induction false} OracleFlows(m: Market, events: seq<Event>, user: Address)
    requires forall e :: e in events ==> e.AssetRegistered? || e.PriceUpdated? || e.PricePublished?
    ensures Owed(events, user) == 0 && Deposited(m, events, user) == 0
  {
    if events != [] {
      assert events[|events| - 1] in events;
      OracleFlows(m, events[..|events| - 1], user);
    }
  }

  lemma PoolGivesNoProfit(m: Market, c: Chain, tx: Tx, user: Address)
    requires Books(c.pool) && Transact(m, c, tx).Success?
    requires !(tx.call.RegisterAssetCall? || tx.call.SetPriceCall? || tx.call.PublishPriceCall?)
    ensures var next := Next(m, c, tx);
            && ExactDebt(next.after.pool, user) >= ExactDebt(c.pool, user) + Owed(next.events, user) * RAY
            && c.pool.liquidityIndex <= next.after.pool.liquidityIndex
            && (next.after.pool.liquidityIndex == c.pool.liquidityIndex ==>
                  ExactClaim(next.after.pool, user) <= ExactClaim(c.pool, user) + Deposited(m, next.events, user) * RAY)
  {
    hide Floor, Ceil, AccrueInterest, SupplyUsdc, SupplyWeth, WithdrawUsdc, WithdrawWeth, BorrowUsdc, RepayUsdc,
         SeizeCollateral, CalculateLiquidation, ValidatedPosition, ExactDebt, ExactClaim, Owed, Deposited, Books;
    AccruedBooks(c.pool, tx.now);
    AccrualRaisesDebt(c.pool, tx.now, user);
    var p := Accrued(c.pool, tx.now);
    var q := Next(m, c, tx).after.pool;
    var events := AccrueInterest(c.pool, tx.now).value.events;
    var prices := PricesAt(m, c.oracle, tx.now);
    match tx.call {
      case SupplyCall(sender, asset, amount) =>
        var e := Supplied(sender, asset, amount);
        AccrualFlows(m, c.pool, tx.now, [e], user);
        OneEvent(m, e, user);
        if asset == m.usdc {
          SupplierKeepsPrincipal(p, sender, amount, user);
          SupplyUsdcEffect(p, sender, amount);
          SameDebts(p, q, user);
        } else {
          CollateralEffect(p, prices, sender, amount);
          SameDebts(p, q, user);
        }
      case WithdrawCall(sender, asset, amount) =>
        var e := Withdrawn(sender, asset, amount);
        AccrualFlows(m, c.pool, tx.now, [e], user);
        OneEvent(m, e, user);
        if asset == m.usdc {
          SupplierKeepsPrincipal(p, sender, amount, user);
          WithdrawUsdcEffect(p, sender, amount);
          SameDebts(p, q, user);
        } else {
          CollateralEffect(p, prices, sender, amount);
          SameDebts(p, q, user);
        }
      case BorrowCall(sender, asset, amount) =>
        var e := Borrowed(sender, asset, amount);
        AccrualFlows(m, c.pool, tx.now, [e], user);
        OneEvent(m, e, user);
        BorrowKeepsPrincipal(p, prices, sender, amount, user);
        BorrowEffect(p, prices, sender, amount);
        SameDebts(p, q, user);
      case RepayCall(sender, asset, amount) =>
        var r := RepayUsdc(p, sender, amount).value;
        var e := Repaid(sender, asset, r.repaidAmount, r.remainingDebt);
        AccrualFlows(m, c.pool, tx.now, [e], user);
        OneEvent(m, e, user);
        RepayKeepsPrincipal(p, sender, amount, user);
        RepayEffect(p, sender, amount);
        SameDebts(p, q, user);
      case LiquidateCall(sender, borrower, _, _, requestedRepay, _) =>
        var position := ValidatedPosition(c.pool, prices, tx.now, borrower).value;
        var sizing := CalculateLiquidation(prices, position.debt, position.collateral, requestedRepay).value;
        LiquidationGivesNoProfit(m, c.pool, tx.now, borrower, sender, sizing.repaidAmount, sizing.collateralSeized,
                                 user);
      case ExecuteLiquidationCall(borrower, liquidator, repaid, seized) =>
        LiquidationGivesNoProfit(m, c.pool, tx.now, borrower, liquidator, repaid, seized, user);
      case AccrueCall =>
        AccrualFlows(m, c.pool, tx.now, [], user);
        OracleFlows(m, [], user);
        assert events + [] == events;
    }
  }

  lemma SameDebts(p: Storage, q: Storage, user: Address)
    ensures q.debts == p.debts && q.borrowIndex == p.borrowIndex ==> ExactDebt(q, user) == ExactDebt(p, user)
    ensures q.deposits == p.deposits && q.liquidityIndex == p.liquidityIndex ==>
        ExactClaim(q, user) == ExactClaim(p, user)
  {
  }

  lemma LiquidationGivesNoProfit(m: Market, p0: Storage, now: nat, borrower: Address, liquidator: Address,
                                 repaid: nat, seized: nat, user: Address)
    requires Books(p0) && ExecuteLiquidation(m, p0, now, borrower, liquidator, repaid, seized).Success?
    ensures var step := ExecuteLiquidation(m, p0, now, borrower, liquidator, repaid, seized).value;
            && ExactDebt(step.after, user) >= ExactDebt(p0, user) + Owed(step.events, user) * RAY
            && p0.liquidityIndex <= step.after.liquidityIndex
            && (step.after.liquidityIndex == p0.liquidityIndex ==>
                  ExactClaim(step.after, user) <= ExactClaim(p0, user) + Deposited(m, step.events, user) * RAY)
  {
    hide Floor, Ceil, AccrueInterest, SeizeCollateral, ScaledDebtBurn, ExactDebt, ExactClaim, Owed, Deposited, Books;
    AccruedBooks(p0, now);
    AccrualRaisesDebt(p0, now, user);
    var p := Accrued(p0, now);
    var r := SeizeCollateral(p, borrower, repaid, seized).value;
    var events := AccrueInterest(p0, now).value.events;
    SeizureKeepsPrincipal(p, borrower, repaid, seized, user);
    SeizeEffect(p, borrower, repaid, seized);
    SameDebts(p, r.after, user);
    var e := Liquidated(liquidator, borrower, m.usdc, m.weth, repaid, seized);
    var f := BadDebtRecognized(borrower, r.recognizedBadDebt);
    OneEvent(m, e, user);
    TwoEvents(m, e, f, user);
    AccrualFlows(m, p0, now, [e], user);
    AccrualFlows(m, p0, now, [e] + [f], user);
    assert events + [e] + [f] == events + ([e] + [f]);
    assert events + [e] + [] == events + [e];
  }

  /** Over any run from any sound state, a borrower's exact debt covers the principal taken out and not
      returned; at an unchanged index, a supplier takes out at most what the claim and deposits cover. */
  lemma {:induction false} NoRoundingProfit(m: Market, c: Chain, txs: seq<Tx>, user: Address)
    requires Books(c.pool)
    ensures var run := Run(m, c, txs);
            && Books(run.after.pool)
            && ExactDebt(run.after.pool, user) >= ExactDebt(c.pool, user) + Owed(run.events, user) * RAY
            && c.pool.liquidityIndex <= run.after.pool.liquidityIndex
            && (run.after.pool.liquidityIndex == c.pool.liquidityIndex ==>
                  ExactClaim(run.after.pool, user) <= ExactClaim(c.pool, user) + Deposited(m, run.events, user) * RAY)
  {
    hide Next, ExactDebt, ExactClaim, Books, Owed, Deposited;
    if txs == [] {
      OracleFlows(m, [], user);
    } else {
      var before := txs[..|txs| - 1];
      var mid := Run(m, c, before);
      NoRoundingProfit(m, c, before, user);
      TransactionGivesNoProfit(m, mid.after, txs[|txs| - 1], user);
      GapMovesByAtMostOne(m, mid.after, txs[|txs| - 1]);
      var last := Next(m, mid.after, txs[|txs| - 1]);
      FlowsAdd(m, mid.events, last.events, user);
      assert (Owed(mid.events, user) + Owed(last.events, user)) * RAY ==
             Owed(mid.events, user) * RAY + Owed(last.events, user) * RAY;
    }
  }

  /** A fresh supplier never withdraws more than was supplied while the index stands still. */
  lemma WithdrawnAtMostSupplied(m: Market, c: Chain, txs: seq<Tx>, user: Address)
    requires Books(c.pool) && c.pool.deposits.BalanceOf(user) == 0
    requires Run(m, c, txs).after.pool.liquidityIndex == c.pool.liquidityIndex
    ensures Deposited(m, Run(m, c, txs).events, user) >= 0
  {
    hide Run, Deposited, Books;
    NoRoundingProfit(m, c, txs, user);
  }
}
