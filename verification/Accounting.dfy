/** USDC accounting over whole runs of the protocol. */
module Accounting {
  import opened Results
  import opened FixedPoint
  import opened Ledgers
  import opened RiskManager
  import opened Pool
  import opened LiquidationManager
  import opened AccrualSoundness
  import opened PoolEffects
  import opened Protocol

  /** How many transactions of a run succeeded in touching a debt. */
  ghost function DebtMoves(m: Market, c: Chain, txs: seq<Tx>): nat {
    if txs == [] then 0 else
    var before := txs[..|txs| - 1];
    var last := txs[|txs| - 1];
    DebtMoves(m, c, before)
    + if TouchesDebt(last.call) && Transact(m, Run(m, c, before).after, last).Success? then 1 else 0
  }

  lemma NoGapAtGenesis(deployedAt: nat)
    ensures Gap(Genesis(deployedAt).pool) == 0
  {
    ZeroProduct(RAY, RAY);
  }

  /** The gap is never larger than the number of borrows, repayments and liquidations so far. */
  lemma {:induction false} GapDriftsByAtMostOnePerDebtMove(m: Market, deployedAt: nat, txs: seq<Tx>)
    ensures var gap := Gap(Run(m, Genesis(deployedAt), txs).after.pool);
            var moves := DebtMoves(m, Genesis(deployedAt), txs);
            gap <= moves && -gap <= moves
  {
    hide Gap, Next, Transact, TouchesDebt, Books, Genesis;
    var c := Genesis(deployedAt);
    if txs == [] {
      NoGapAtGenesis(deployedAt);
    } else {
      var before := txs[..|txs| - 1];
      var last := txs[|txs| - 1];
      var mid := Run(m, c, before).after;
      GapDriftsByAtMostOnePerDebtMove(m, deployedAt, before);
      BooksAlways(m, deployedAt, before);
      GapMovesByAtMostOne(m, mid, last);
    }
  }

  ghost predicate AtMostOneDebtor(p: Storage) {
    forall a, b :: p.debts.BalanceOf(a) > 0 && p.debts.BalanceOf(b) > 0 ==> a == b
  }

  /** A sole debtor's rounded debt is the rounded total. */
  lemma SoleDebtorOwesTotal(p: Storage, user: Address)
    requires p.debts.Valid()
    requires forall b :: b != user ==> p.debts.BalanceOf(b) == 0
    ensures UserDebt(p, user) == TotalDebt(p)
  {
    SoleHolder(p.debts, user);
  }

  /** With one debtor before and after, no transaction moves the gap at all. */
  lemma SoleDebtorKeepsGap(m: Market, c: Chain, tx: Tx)
    requires Books(c.pool)
    requires AtMostOneDebtor(c.pool) && AtMostOneDebtor(Next(m, c, tx).after.pool)
    ensures Gap(Next(m, c, tx).after.pool) == Gap(c.pool)
  {
    hide Floor, Ceil, AccrueInterest, SupplyUsdc, SupplyWeth, WithdrawUsdc, WithdrawWeth, BorrowUsdc, RepayUsdc,
         SeizeCollateral, CalculateLiquidation, ValidatedPosition, ScaledDebtBurn, ReduceDebt, Gap;
    GapMovesByAtMostOne(m, c, tx);
    if Transact(m, c, tx).Success? && TouchesDebt(tx.call) {
      AccruedBooks(c.pool, tx.now);
      var p := Accrued(c.pool, tx.now);
      var q := Next(m, c, tx).after.pool;
      var prices := PricesAt(m, c.oracle, tx.now);
      match tx.call {
        case BorrowCall(sender, asset, amount) =>
          BorrowEffect(p, prices, sender, amount);
          MintEffect(p.debts, sender, Ceil(amount, RAY, p.borrowIndex));
          SoleDebtorOwesTotal(p, sender);
          SoleDebtorOwesTotal(q, sender);
        case RepayCall(sender, asset, amount) =>
          RepayEffect(p, sender, amount);
          var repaid := RepayUsdc(p, sender, amount).value.repaidAmount;
          ReduceDebtEffect(p, sender, repaid);
          BurnEffect(p.debts, sender, ScaledDebtBurn(p, p.debts.BalanceOf(sender), repaid).value.scaledBurn);
          SoleDebtorOwesTotal(p, sender);
          SoleDebtorOwesTotal(q, sender);
        case LiquidateCall(sender, borrower, _, _, requestedRepay, _) =>
          var position := ValidatedPosition(c.pool, prices, tx.now, borrower).value;
          var sizing := CalculateLiquidation(prices, position.debt, position.collateral, requestedRepay).value;
          SoleDebtorSeized(p, borrower, sizing.repaidAmount, sizing.collateralSeized);
        case ExecuteLiquidationCall(borrower, _, repaid, seized) =>
          SoleDebtorSeized(p, borrower, repaid, seized);
      }
    }
  }

  lemma SoleDebtorSeized(p: Storage, borrower: Address, repaid: nat, seized: nat)
    requires Books(p) && AtMostOneDebtor(p) && repaid > 0
    requires SeizeCollateral(p, borrower, repaid, seized).Success?
    ensures Gap(SeizeCollateral(p, borrower, repaid, seized).value.after) == Gap(p)
  {
    hide Floor, Ceil, SeizeCollateral, ScaledDebtBurn, Gap;
    SeizeEffect(p, borrower, repaid, seized);
    var burn := ScaledDebtBurn(p, p.debts.BalanceOf(borrower), repaid).value;
    ZeroProduct(p.borrowIndex, RAY);
    var mid := ReduceDebt(p, borrower, UserDebt(p, borrower), repaid, burn).value;
    DebtBurnEffect(p, borrower, repaid);
    BurnEffect(p.debts, borrower, burn.scaledBurn);
    BurnEffect(mid.debts, borrower, mid.debts.BalanceOf(borrower));
    SoleDebtorOwesTotal(p, borrower);
    SoleDebtorOwesTotal(SeizeCollateral(p, borrower, repaid, seized).value.after, borrower);
  }

  /** While at most one account holds debt at a time, liquidity plus debt plus bad debt equals supplier
      claims plus the reserve, exactly, in every state of every run. */
  lemma {:induction false} SoleDebtorIdentity(m: Market, deployedAt: nat, txs: seq<Tx>)
    requires forall k :: 0 <= k <= |txs| ==> AtMostOneDebtor(Run(m, Genesis(deployedAt), txs[..k]).after.pool)
    ensures var p := Run(m, Genesis(deployedAt), txs).after.pool;
            p.available + TotalDebt(p) + p.badDebt == TotalSupply(p) + p.reserve
  {
    hide Next, AtMostOneDebtor, TotalDebt, TotalSupply, Books, Genesis;
    var c := Genesis(deployedAt);
    if txs == [] {
      NoGapAtGenesis(deployedAt);
    } else {
      var before := txs[..|txs| - 1];
      assert forall k :: 0 <= k <= |before| ==> txs[..k] == before[..k];
      SoleDebtorIdentity(m, deployedAt, before);
      BooksAlways(m, deployedAt, before);
      assert txs[..|txs|] == txs;
      assert AtMostOneDebtor(Run(m, c, txs[..|txs|]).after.pool);
      SoleDebtorKeepsGap(m, Run(m, c, before).after, txs[|txs| - 1]);
    }
  }

  // The exact condition ------------------------------------------------------------------------

  /** By how much a change of a user's scaled debt rounds differently on the total than on the user. */
  ghost function Disagreement(p: Storage, user: Address, change: int): int {
    var balance := p.debts.BalanceOf(user);
    (Worth(p.debts.total + change, p.borrowIndex) - Worth(p.debts.total, p.borrowIndex))
    - (Worth(balance + change, p.borrowIndex) - Worth(balance, p.borrowIndex))
  }

  /** The scaled units a liquidation takes off the books: all of them once the collateral is gone. */
  ghost function SeizedUnits(p: Storage, borrower: Address, repaid: nat, seized: nat): nat
    requires p.borrowIndex > 0
  {
    if seized == p.collateral.BalanceOf(borrower) then p.debts.BalanceOf(borrower) else BurntUnits(p, borrower, repaid)
  }

  /** How far a transaction moves the gap, read off the accrued storage before the call. */
  ghost function Drift(m: Market, c: Chain, tx: Tx): int
    requires Books(c.pool)
  {
    if !TouchesDebt(tx.call) || Transact(m, c, tx).Failure? || AccrueInterest(c.pool, tx.now).Failure? then 0 else
    AccruedBooks(c.pool, tx.now);
    var p := Accrued(c.pool, tx.now);
    match tx.call
    case BorrowCall(sender, _, amount) => Disagreement(p, sender, Ceil(amount, RAY, p.borrowIndex))
    case RepayCall(sender, _, amount) => Disagreement(p, sender, 0 - BurntUnits(p, sender, amount))
    case LiquidateCall(_, borrower, _, _, _, _) =>
      var sizing := SizingOf(m, c, tx);
      if sizing.Failure? then 0 else
      Disagreement(p, borrower, 0 - SeizedUnits(p, borrower, sizing.value.repaidAmount, sizing.value.collateralSeized))
    case ExecuteLiquidationCall(borrower, _, repaid, seized) =>
      Disagreement(p, borrower, 0 - SeizedUnits(p, borrower, repaid, seized))
  }

  /** What the manager sizes for a liquidation. */
  ghost function SizingOf(m: Market, c: Chain, tx: Tx): Result<Sizing>
    requires tx.call.LiquidateCall?
  {
    var prices := PricesAt(m, c.oracle, tx.now);
    var position :- ValidatedPosition(c.pool, prices, tx.now, tx.call.borrower);
    CalculateLiquidation(prices, position.debt, position.collateral, tx.call.requestedRepay)
  }

  lemma BorrowDrift(p: Storage, prices: Prices, sender: Address, amount: nat)
    requires Books(p) && prices.Positive() && BorrowUsdc(p, prices, sender, amount).Success?
    ensures Gap(BorrowUsdc(p, prices, sender, amount).value) - Gap(p)
            == Disagreement(p, sender, Ceil(amount, RAY, p.borrowIndex))
  {
    hide Floor, Ceil, BorrowUsdc, Gap;
    BorrowEffect(p, prices, sender, amount);
    MintEffect(p.debts, sender, Ceil(amount, RAY, p.borrowIndex));
  }

  lemma RepayDrift(p: Storage, sender: Address, amount: nat)
    requires Books(p) && RepayUsdc(p, sender, amount).Success?
    ensures Gap(RepayUsdc(p, sender, amount).value.after) - Gap(p)
            == Disagreement(p, sender, 0 - BurntUnits(p, sender, amount))
  {
    hide Floor, Ceil, RepayUsdc, ScaledDebtBurn, Gap;
    RepayEffect(p, sender, amount);
    var repaid := RepayUsdc(p, sender, amount).value.repaidAmount;
    ReduceDebtEffect(p, sender, repaid);
    DebtBurnEffect(p, sender, repaid);
    BurnEffect(p.debts, sender, ScaledDebtBurn(p, p.debts.BalanceOf(sender), repaid).value.scaledBurn);
  }

  lemma SeizeDrift(p: Storage, borrower: Address, repaid: nat, seized: nat)
    requires Books(p) && SeizeCollateral(p, borrower, repaid, seized).Success?
    ensures Gap(SeizeCollateral(p, borrower, repaid, seized).value.after) - Gap(p)
            == Disagreement(p, borrower, 0 - SeizedUnits(p, borrower, repaid, seized))
  {
    hide Floor, Ceil, SeizeCollateral, ScaledDebtBurn, Gap;
    SeizeEffect(p, borrower, repaid, seized);
    DebtBurnEffect(p, borrower, repaid);
    var burn := ScaledDebtBurn(p, p.debts.BalanceOf(borrower), repaid).value;
    var mid := ReduceDebt(p, borrower, UserDebt(p, borrower), repaid, burn).value;
    ReduceDebtEffect(p, borrower, repaid);
    BurnEffect(p.debts, borrower, burn.scaledBurn);
    BurnEffect(mid.debts, borrower, mid.debts.BalanceOf(borrower));
  }

  /** Every transaction moves the gap by exactly its drift: it keeps the identity if and only if the change of
      scaled debt rounds alike on the total and on the user. */
  lemma GapMovesByDrift(m: Market, c: Chain, tx: Tx)
    requires Books(c.pool)
    ensures Gap(Next(m, c, tx).after.pool) - Gap(c.pool) == Drift(m, c, tx)
  {
    hide Floor, Ceil, AccrueInterest, SupplyUsdc, SupplyWeth, WithdrawUsdc, WithdrawWeth, BorrowUsdc, RepayUsdc,
         SeizeCollateral, CalculateLiquidation, ValidatedPosition, Gap, Disagreement, BurntUnits, SeizedUnits;
    GapMovesByAtMostOne(m, c, tx);
    if Transact(m, c, tx).Success? && TouchesDebt(tx.call) {
      AccruedBooks(c.pool, tx.now);
      var p := Accrued(c.pool, tx.now);
      var prices := PricesAt(m, c.oracle, tx.now);
      match tx.call {
        case BorrowCall(sender, _, amount) => BorrowDrift(p, prices, sender, amount);
        case RepayCall(sender, _, amount) => RepayDrift(p, sender, amount);
        case LiquidateCall(_, borrower, _, _, _, _) =>
          var sizing := SizingOf(m, c, tx).value;
          SeizeDrift(p, borrower, sizing.repaidAmount, sizing.collateralSeized);
        case ExecuteLiquidationCall(borrower, _, repaid, seized) => SeizeDrift(p, borrower, repaid, seized);
      }
    }
  }

  ghost function TotalDrift(m: Market, deployedAt: nat, txs: seq<Tx>): int {
    if txs == [] then 0 else
    var before := txs[..|txs| - 1];
    BooksAlways(m, deployedAt, before);
    TotalDrift(m, deployedAt, before) + Drift(m, Run(m, Genesis(deployedAt), before).after, txs[|txs| - 1])
  }

  /** In every run, the identity holds if and only if the drifts of its transactions add up to zero. */
  lemma {:induction false} IdentityIff(m: Market, deployedAt: nat, txs: seq<Tx>)
    ensures var p := Run(m, Genesis(deployedAt), txs).after.pool;
            && Gap(p) == TotalDrift(m, deployedAt, txs)
            && (p.available + TotalDebt(p) + p.badDebt == TotalSupply(p) + p.reserve <==>
                TotalDrift(m, deployedAt, txs) == 0)
  {
    hide Next, TotalDebt, TotalSupply, Books, Genesis, Drift;
    if txs == [] {
      NoGapAtGenesis(deployedAt);
    } else {
      var before := txs[..|txs| - 1];
      IdentityIff(m, deployedAt, before);
      BooksAlways(m, deployedAt, before);
      GapMovesByDrift(m, Run(m, Genesis(deployedAt), before).after, txs[|txs| - 1]);
    }
  }

  // The views ----------------------------------------------------------------------------------

  /** Interest that the total-debt and total-supply views already project at `now`, and that the reserve will
      only receive at the next accrual. */
  ghost function PendingReserve(p: Storage, next: Indices): int {
    (Ceil(p.debts.total, next.borrow, RAY) - TotalDebt(p))
    - (Floor(p.deposits.total, next.liquidity, RAY) - TotalSupply(p))
  }

  /** Suppliers never get all of the interest, so nothing is pending only while the rounded debt has not grown. */
  lemma PendingIff(p: Storage, now: nat)
    requires Books(p) && p.lastUpdate <= now && ProjectedIndices(p, now).Success?
    ensures var pending := PendingReserve(p, ProjectedIndices(p, now).value);
            && pending >= 0
            && (pending == 0 <==> p.debts.total * GrownIndex(p, now - p.lastUpdate) <= TotalDebt(p) * RAY)
  {
    hide Floor, Ceil, ProjectedIndices, GrownIndex;
    ProjectionSound(p, now);
    var next := ProjectedIndices(p, now).value.borrow;
    CeilBounds(p.debts.total, next, RAY);
    if p.debts.total * next <= TotalDebt(p) * RAY {
      CeilLeast(p.debts.total, next, RAY, TotalDebt(p));
    }
  }

  /** The identity as the contract's views show it at a block time: it holds if and only if the debt, at the index that
      the elapsed time gives, still rounds to what it was at the last accrual. So it does in a block in which interest
      was accrued and without debt, and not any more once the interest is worth a base unit. */
  lemma SoleDebtorViews(m: Market, deployedAt: nat, txs: seq<Tx>, now: nat)
    requires forall k :: 0 <= k <= |txs| ==> AtMostOneDebtor(Run(m, Genesis(deployedAt), txs[..k]).after.pool)
    requires ProjectedIndices(Run(m, Genesis(deployedAt), txs).after.pool, now).Success?
    ensures var p := Run(m, Genesis(deployedAt), txs).after.pool;
            var next := ProjectedIndices(p, now).value;
            var assets := p.available + Ceil(p.debts.total, next.borrow, RAY) + p.badDebt;
            var claims := Floor(p.deposits.total, next.liquidity, RAY) + p.reserve;
            && p.lastUpdate <= now && claims <= assets
            && var grown := GrownIndex(p, now - p.lastUpdate);
               && (assets == claims <==> p.debts.total * grown <= TotalDebt(p) * RAY)
               && (now == p.lastUpdate || p.debts.total == 0 ==> assets == claims)
               && (p.debts.total * (grown - p.borrowIndex) >= RAY ==> assets > claims)
  {
    hide Run, Ceil, Floor, AtMostOneDebtor, GrownIndex;
    SoleDebtorIdentity(m, deployedAt, txs);
    BooksAlways(m, deployedAt, txs);
    var p := Run(m, Genesis(deployedAt), txs).after.pool;
    ProjectionInOrder(p, now);
    PendingIff(p, now);
    CeilBounds(p.debts.total, p.borrowIndex, RAY);
    var grown := GrownIndex(p, now - p.lastUpdate);
    assert p.debts.total * (grown - p.borrowIndex) == p.debts.total * grown - p.debts.total * p.borrowIndex;
  }

  lemma ProjectionInOrder(p: Storage, now: nat)
    requires ProjectedIndices(p, now).Success?
    ensures p.lastUpdate <= now
    ensures p.lastUpdate == now ==> ProjectedIndices(p, now).value == Indices(p.borrowIndex, p.liquidityIndex)
  {
    hide MulDivDown, MulDivUp, CappedLiquidityIndex;
  }
}
