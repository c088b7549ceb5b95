/** Folding the emitted events rebuilds the pool: the projector refines the contracts. */
module ProjectorRefinement {
  import opened Results
  import opened FixedPoint
  import opened Ledgers
  import opened RiskManager
  import opened Pool
  import opened LiquidationManager
  import opened AccrualSoundness
  import opened PoolEffects
  import opened Protocol
  import opened StateProjector

  /** The derived positions are exactly the users' balances, with no empty row kept. */
  ghost predicate MirrorsUsers(p: Storage, d: DerivedState) {
    && (forall a :: PositionOf(d, a) ==
                    PositionState(p.collateral.BalanceOf(a), p.deposits.BalanceOf(a), p.debts.BalanceOf(a)))
    && (forall a :: a in d.positions ==> d.positions[a] != NO_POSITION)
  }

  ghost predicate MirrorsTotals(p: Storage, k: MarketState) {
    && k.totalWethCollateral == p.collateral.total
    && k.totalScaledUsdcSupply == p.deposits.total
    && k.totalScaledUsdcDebt == p.debts.total
    && k.availableUsdcLiquidity == p.available
    && k.protocolReserve == p.reserve
    && k.badDebt == p.badDebt
    && k.borrowIndex == p.borrowIndex
    && k.liquidityIndex == p.liquidityIndex
  }

  function OracleRow(oracle: Oracle, asset: Address): AssetPrice {
    if asset in oracle then oracle[asset] else AssetPrice(0, 0, 0, 0)
  }

  ghost predicate MirrorsPrices(m: Market, oracle: Oracle, k: MarketState) {
    && var weth := OracleRow(oracle, m.weth);
       var usdc := OracleRow(oracle, m.usdc);
       && k.wethPrice == weth.price && k.wethPriceUpdatedAt == weth.updatedAt && k.wethMaxPriceAge == weth.maxPriceAge
       && k.usdcPrice == usdc.price && k.usdcPriceUpdatedAt == usdc.updatedAt && k.usdcMaxPriceAge == usdc.maxPriceAge
  }

  ghost predicate Mirrors(m: Market, c: Chain, d: DerivedState) {
    MirrorsUsers(c.pool, d) && MirrorsTotals(c.pool, d.market) && MirrorsPrices(m, c.oracle, d.market)
  }

  /** Changing one user's row, and dropping it when empty, mirrors changing that user's balances. */
  lemma UserRow(p: Storage, q: Storage, d: DerivedState, d': DerivedState, user: Address, row: PositionState)
    requires MirrorsUsers(p, d)
    requires row == PositionState(q.collateral.BalanceOf(user), q.deposits.BalanceOf(user), q.debts.BalanceOf(user))
    requires forall a :: a != user ==>
                           && q.collateral.BalanceOf(a) == p.collateral.BalanceOf(a)
                           && q.deposits.BalanceOf(a) == p.deposits.BalanceOf(a)
                           && q.debts.BalanceOf(a) == p.debts.BalanceOf(a)
    requires d'.positions == RemoveEmptyPosition(SetPosition(d, user, row), user).positions
             || (row != NO_POSITION && d'.positions == SetPosition(d, user, row).positions)
    ensures MirrorsUsers(q, d')
  {
    forall a
      ensures PositionOf(d', a) ==
              PositionState(q.collateral.BalanceOf(a), q.deposits.BalanceOf(a), q.debts.BalanceOf(a))
    {
      assert PositionOf(d, a) ==
             PositionState(p.collateral.BalanceOf(a), p.deposits.BalanceOf(a), p.debts.BalanceOf(a));
    }
  }

  lemma AccrualMirrored(m: Market, c: Chain, now: nat, d: DerivedState)
    requires Sound(c.pool) && Mirrors(m, c, d) && AccrueInterest(c.pool, now).Success? && now > c.pool.lastUpdate
    ensures var step := AccrueInterest(c.pool, now).value;
            && |step.events| == 1 && step.events[0].InterestAccrued?
            && Sound(step.after)
            && var e := step.events[0];
               var r := ApplyInterestAccrued(d, e.timestamp, e.borrowIndex, e.liquidityIndex, e.reserveAccrued);
               && r.Success? && Mirrors(m, c.(pool := step.after), r.value)
               && r.value.market.lastInterestTimestamp == step.after.lastUpdate
  {
    hide Floor, Ceil, ProjectedIndices;
    AccrualIsSound(c.pool, now);
  }

  lemma SupplyUsdcMirrored(m: Market, p: Storage, d: DerivedState, sender: Address, amount: nat)
    requires m.weth != m.usdc && Sound(p) && MirrorsUsers(p, d) && MirrorsTotals(p, d.market)
    requires SupplyUsdc(p, sender, amount).Success?
    ensures var q := SupplyUsdc(p, sender, amount).value;
            var r := ApplySupplied(m, d, sender, m.usdc, amount);
            && r.Success? && Sound(q) && MirrorsUsers(q, r.value)
            && r.value.market == d.market.(totalScaledUsdcSupply := q.deposits.total,
                                           protocolReserve := q.reserve, availableUsdcLiquidity := q.available)
            && MirrorsTotals(q, r.value.market)
  {
    hide Floor, Ceil;
    SupplyUsdcEffect(p, sender, amount);
    var minted := Floor(amount, RAY, p.liquidityIndex);
    MintEffect(p.deposits, sender, minted);
    var q := SupplyUsdc(p, sender, amount).value;
    BalancesWithinTotal(q.deposits, sender, sender);
    assert PositionOf(d, sender) ==
           PositionState(p.collateral.BalanceOf(sender), p.deposits.BalanceOf(sender), p.debts.BalanceOf(sender));
    var r := ApplySupplied(m, d, sender, m.usdc, amount);
    assert r.Success?;
    UserRow(p, q, d, r.value, sender,
            PositionOf(d, sender).(scaledUsdcSupply := p.deposits.BalanceOf(sender) + minted));
  }

  lemma WithdrawUsdcMirrored(m: Market, p: Storage, d: DerivedState, sender: Address, amount: nat)
    requires m.weth != m.usdc && Sound(p) && MirrorsUsers(p, d) && MirrorsTotals(p, d.market)
    requires WithdrawUsdc(p, sender, amount).Success?
    ensures var q := WithdrawUsdc(p, sender, amount).value;
            var r := ApplyWithdrawn(m, d, sender, m.usdc, amount);
            && r.Success? && Sound(q) && MirrorsUsers(q, r.value)
            && r.value.market == d.market.(totalScaledUsdcSupply := q.deposits.total,
                                           protocolReserve := q.reserve, availableUsdcLiquidity := q.available)
            && MirrorsTotals(q, r.value.market)
  {
    hide Floor, Ceil;
    WithdrawUsdcEffect(p, sender, amount);
    var balance := p.deposits.BalanceOf(sender);
    var burnt := if amount == Floor(balance, p.liquidityIndex, RAY) then balance
                 else Ceil(amount, RAY, p.liquidityIndex);
    BurnEffect(p.deposits, sender, burnt);
    var q := WithdrawUsdc(p, sender, amount).value;
    assert PositionOf(d, sender) ==
           PositionState(p.collateral.BalanceOf(sender), p.deposits.BalanceOf(sender), p.debts.BalanceOf(sender));
    var r := ApplyWithdrawn(m, d, sender, m.usdc, amount);
    assert r.Success?;
    UserRow(p, q, d, r.value, sender, PositionOf(d, sender).(scaledUsdcSupply := balance - burnt));
  }

  lemma SupplyWethMirrored(m: Market, p: Storage, d: DerivedState, sender: Address, amount: nat)
    requires Sound(p) && MirrorsUsers(p, d) && MirrorsTotals(p, d.market) && amount > 0
    requires SupplyWeth(p, sender, amount).Success?
    ensures var q := SupplyWeth(p, sender, amount).value;
            var r := ApplySupplied(m, d, sender, m.weth, amount);
            && r.Success? && Sound(q) && MirrorsUsers(q, r.value)
            && r.value.market == d.market.(totalWethCollateral := q.collateral.total)
            && MirrorsTotals(q, r.value.market)
  {
    MintEffect(p.collateral, sender, amount);
    var q := SupplyWeth(p, sender, amount).value;
    BalancesWithinTotal(q.collateral, sender, sender);
    assert PositionOf(d, sender) ==
           PositionState(p.collateral.BalanceOf(sender), p.deposits.BalanceOf(sender), p.debts.BalanceOf(sender));
    var r := ApplySupplied(m, d, sender, m.weth, amount);
    UserRow(p, q, d, r.value, sender,
            PositionOf(d, sender).(wethCollateral := p.collateral.BalanceOf(sender) + amount));
  }

  lemma WithdrawWethMirrored(m: Market, p: Storage, prices: Prices, d: DerivedState, sender: Address, amount: nat)
    requires Sound(p) && MirrorsUsers(p, d) && MirrorsTotals(p, d.market)
    requires WithdrawWeth(p, prices, sender, amount).Success?
    ensures var q := WithdrawWeth(p, prices, sender, amount).value;
            var r := ApplyWithdrawn(m, d, sender, m.weth, amount);
            && r.Success? && Sound(q) && MirrorsUsers(q, r.value)
            && r.value.market == d.market.(totalWethCollateral := q.collateral.total)
            && MirrorsTotals(q, r.value.market)
  {
    hide Floor, Ceil, HealthFactor, CollateralValue;
    BurnEffect(p.collateral, sender, amount);
    var q := WithdrawWeth(p, prices, sender, amount).value;
    assert PositionOf(d, sender) ==
           PositionState(p.collateral.BalanceOf(sender), p.deposits.BalanceOf(sender), p.debts.BalanceOf(sender));
    var r := ApplyWithdrawn(m, d, sender, m.weth, amount);
    UserRow(p, q, d, r.value, sender,
            PositionOf(d, sender).(wethCollateral := p.collateral.BalanceOf(sender) - amount));
  }

  lemma BorrowMirrored(m: Market, p: Storage, prices: Prices, d: DerivedState, sender: Address, amount: nat)
    requires Sound(p) && MirrorsUsers(p, d) && MirrorsTotals(p, d.market) && prices.Positive()
    requires BorrowUsdc(p, prices, sender, amount).Success?
    ensures var q := BorrowUsdc(p, prices, sender, amount).value;
            var r := ApplyBorrowed(m, d, sender, m.usdc, amount);
            && r.Success? && Sound(q) && MirrorsUsers(q, r.value)
            && r.value.market == d.market.(totalScaledUsdcDebt := q.debts.total,
                                           protocolReserve := q.reserve, availableUsdcLiquidity := q.available)
            && MirrorsTotals(q, r.value.market)
  {
    hide Floor, Ceil, MaxBorrow, DebtValue, HealthFactor;
    BorrowEffect(p, prices, sender, amount);
    var minted := Ceil(amount, RAY, p.borrowIndex);
    MintEffect(p.debts, sender, minted);
    var q := BorrowUsdc(p, prices, sender, amount).value;
    BalancesWithinTotal(q.debts, sender, sender);
    assert PositionOf(d, sender) ==
           PositionState(p.collateral.BalanceOf(sender), p.deposits.BalanceOf(sender), p.debts.BalanceOf(sender));
    var r := ApplyBorrowed(m, d, sender, m.usdc, amount);
    assert r.Success?;
    UserRow(p, q, d, r.value, sender,
            PositionOf(d, sender).(scaledUsdcDebt := p.debts.BalanceOf(sender) + minted));
  }

  /** The projector re-derives the burn it was never told, from the repayment and what remained. */
  lemma RepayMirrored(m: Market, p: Storage, d: DerivedState, sender: Address, amount: nat)
    requires Sound(p) && MirrorsUsers(p, d) && MirrorsTotals(p, d.market)
    requires RepayUsdc(p, sender, amount).Success?
    ensures var repayment := RepayUsdc(p, sender, amount).value;
            var q := repayment.after;
            var r := ApplyRepaid(m, d, sender, m.usdc, repayment.repaidAmount, repayment.remainingDebt);
            && r.Success? && Sound(q) && MirrorsUsers(q, r.value)
            && r.value.market == d.market.(totalScaledUsdcDebt := q.debts.total,
                                           protocolReserve := q.reserve, availableUsdcLiquidity := q.available)
            && MirrorsTotals(q, r.value.market)
  {
    hide Floor, Ceil;
    RepayEffect(p, sender, amount);
    var repayment := RepayUsdc(p, sender, amount).value;
    var balance := p.debts.BalanceOf(sender);
    var burn := ScaledDebtBurn(p, balance, repayment.repaidAmount).value;
    ReduceDebtEffect(p, sender, repayment.repaidAmount);
    DebtBurnEffect(p, sender, repayment.repaidAmount);
    BurnEffect(p.debts, sender, burn.scaledBurn);
    ZeroProduct(p.borrowIndex, RAY);
    assert PositionOf(d, sender) ==
           PositionState(p.collateral.BalanceOf(sender), p.deposits.BalanceOf(sender), p.debts.BalanceOf(sender));
    var r := ApplyRepaid(m, d, sender, m.usdc, repayment.repaidAmount, repayment.remainingDebt);
    assert r.Success?;
    UserRow(p, repayment.after, d, r.value, sender,
            PositionOf(d, sender).(scaledUsdcDebt := balance - burn.scaledBurn));
  }

  /** The storage between the two events of a liquidation: repaid and seized, bad debt not yet written off. */
  ghost function BeforeWriteOff(p: Storage, borrower: Address, repaid: nat, seized: nat): Storage
    requires Books(p) && SeizeCollateral(p, borrower, repaid, seized).Success?
  {
    SeizeEffect(p, borrower, repaid, seized);
    ReduceDebt(p, borrower, UserDebt(p, borrower), repaid,
               ScaledDebtBurn(p, p.debts.BalanceOf(borrower), repaid).value).value.(
    collateral := p.collateral.Burn(borrower, seized).value)
  }

  lemma SeizeMirrored(m: Market, p: Storage, d: DerivedState, log: RawLog, liquidator: Address, borrower: Address,
                      repaid: nat, seized: nat)
    requires Sound(p) && MirrorsUsers(p, d) && MirrorsTotals(p, d.market)
    requires SeizeCollateral(p, borrower, repaid, seized).Success?
    ensures var q := BeforeWriteOff(p, borrower, repaid, seized);
            var r := ApplyLiquidated(d, log, liquidator, borrower, m.usdc, m.weth, repaid, seized);
            && r.Success? && Sound(q) && MirrorsUsers(q, r.value)
            && r.value.market == d.market.(totalScaledUsdcDebt := q.debts.total, protocolReserve := q.reserve,
                                           availableUsdcLiquidity := q.available,
                                           totalWethCollateral := q.collateral.total)
            && MirrorsTotals(q, r.value.market)
  {
    hide Floor, Ceil;
    SeizeEffect(p, borrower, repaid, seized);
    var balance := p.debts.BalanceOf(borrower);
    var burn := ScaledDebtBurn(p, balance, repaid).value;
    ReduceDebtEffect(p, borrower, repaid);
    DebtBurnEffect(p, borrower, repaid);
    BurnEffect(p.debts, borrower, burn.scaledBurn);
    BurnEffect(p.collateral, borrower, seized);
    assert PositionOf(d, borrower) ==
           PositionState(p.collateral.BalanceOf(borrower), p.deposits.BalanceOf(borrower), p.debts.BalanceOf(borrower));
    var r := ApplyLiquidated(d, log, liquidator, borrower, m.usdc, m.weth, repaid, seized);
    assert r.Success?;
    UserRow(p, BeforeWriteOff(p, borrower, repaid, seized), d, r.value, borrower,
            PositionOf(d, borrower).(scaledUsdcDebt := balance - burn.scaledBurn,
                                     wethCollateral := p.collateral.BalanceOf(borrower) - seized));
  }

  lemma WriteOffMirrored(m: Market, p: Storage, d: DerivedState, borrower: Address, repaid: nat, seized: nat)
    requires Sound(p) && SeizeCollateral(p, borrower, repaid, seized).Success?
    requires MirrorsUsers(BeforeWriteOff(p, borrower, repaid, seized), d)
    requires MirrorsTotals(BeforeWriteOff(p, borrower, repaid, seized), d.market)
    ensures var seizure := SeizeCollateral(p, borrower, repaid, seized).value;
            var q := seizure.after;
            if seizure.recognizedBadDebt == 0 then q == BeforeWriteOff(p, borrower, repaid, seized) else
            var r := ApplyBadDebtRecognized(d, borrower, seizure.recognizedBadDebt);
            && r.Success? && MirrorsUsers(q, r.value)
            && q.reserve == BeforeWriteOff(p, borrower, repaid, seized).reserve
            && r.value.market == d.market.(totalScaledUsdcDebt := q.debts.total, badDebt := q.badDebt)
            && MirrorsTotals(q, r.value.market)
  {
    hide Floor, Ceil, ScaledDebtBurn;
    SeizeEffect(p, borrower, repaid, seized);
    var seizure := SeizeCollateral(p, borrower, repaid, seized).value;
    var mid := BeforeWriteOff(p, borrower, repaid, seized);
    BurnEffect(mid.debts, borrower, mid.debts.BalanceOf(borrower)) by {
      BurnEffect(p.debts, borrower, ScaledDebtBurn(p, p.debts.BalanceOf(borrower), repaid).value.scaledBurn);
    }
    if seizure.recognizedBadDebt != 0 {
      assert PositionOf(d, borrower) ==
             PositionState(mid.collateral.BalanceOf(borrower), mid.deposits.BalanceOf(borrower),
                           mid.debts.BalanceOf(borrower));
      var r := ApplyBadDebtRecognized(d, borrower, seizure.recognizedBadDebt);
      UserRow(mid, seizure.after, d, r.value, borrower, PositionOf(d, borrower).(scaledUsdcDebt := 0));
    }
  }

  // The history ------------------------------------------------------------------------------

  /** The liquidations among events, in order. */
  function LiquidationsIn(events: seq<Event>): seq<Event> {
    if events == [] then [] else
    var last := events[|events| - 1];
    LiquidationsIn(events[..|events| - 1]) + if last.Liquidated? then [last] else []
  }

  function EventOf(row: LiquidationState): Event {
    Liquidated(row.liquidator, row.borrower, row.debtAsset, row.collateralAsset, row.repaidAmount, row.collateralSeized)
  }

  /** The rows say, one for one and in order, what the liquidation events say. */
  ghost predicate Tells(rows: seq<LiquidationState>, events: seq<Event>) {
    && |rows| == |LiquidationsIn(events)|
    && forall i :: 0 <= i < |rows| ==> EventOf(rows[i]) == LiquidationsIn(events)[i]
  }

  lemma LiquidationsMore(events: seq<Event>, e: Event)
    ensures LiquidationsIn(events + [e]) == LiquidationsIn(events) + if e.Liquidated? then [e] else []
  {
    assert (events + [e])[..|events|] == events;
  }

  lemma {:induction false} LiquidationsAreDecodable(events: seq<Event>)
    ensures LiquidationsIn(Decodable(events)) == LiquidationsIn(events)
  {
    if events != [] {
      var init, last := events[..|events| - 1], events[|events| - 1];
      LiquidationsAreDecodable(init);
      LiquidationsMore(Decodable(init), last);
      assert Decodable(init) + [] == Decodable(init);
    }
  }

  lemma TellsMore(rows: seq<LiquidationState>, events: seq<Event>, log: RawLog)
    requires Tells(rows, events)
    ensures log.event.Some? ==> Tells(rows + RowsOf(log), events + [log.event.value])
    ensures log.event.None? ==> rows + RowsOf(log) == rows
  {
    if log.event.Some? {
      LiquidationsMore(events, log.event.value);
      hide LiquidationsIn;
    }
  }

  lemma {:induction false} HistoryTellsDecoded(logs: seq<RawLog>)
    ensures Tells(HistoryOf(logs), Decoded(logs))
  {
    if logs != [] {
      hide Tells, RowsOf;
      var init, last := logs[..|logs| - 1], logs[|logs| - 1];
      HistoryTellsDecoded(init);
      TellsMore(HistoryOf(init), Decoded(init), last);
      assert Decoded(init) + [] == Decoded(init);
    }
  }

  lemma HistoryTells(logs: seq<RawLog>, events: seq<Event>)
    requires Carries(logs, events)
    ensures Tells(HistoryOf(logs), events)
  {
    HistoryTellsDecoded(logs);
    LiquidationsAreDecodable(events);
  }

  // Transactions and runs ------------------------------------------------------------------

  /** What the decoder makes of a stream of logs: those it does not know, of whatever contract, disappear. */
  function Decoded(logs: seq<RawLog>): seq<Event> {
    if logs == [] then [] else
    var last := logs[|logs| - 1];
    Decoded(logs[..|logs| - 1]) + if last.event.Some? then [last.event.value] else []
  }

  /** The events the decoder knows. */
  function Decodable(events: seq<Event>): seq<Event> {
    if events == [] then [] else
    var last := events[|events| - 1];
    Decodable(events[..|events| - 1]) + if last.PricePublished? then [] else [last]
  }

  /** Logs that carry these events in order, among any others that decode to nothing, whatever blocks and
      transactions they sit in. */
  ghost predicate Carries(logs: seq<RawLog>, events: seq<Event>) {
    Decoded(logs) == Decodable(events)
  }

  lemma {:induction false} DecodableConcat(a: seq<Event>, b: seq<Event>)
    ensures Decodable(a + b) == Decodable(a) + Decodable(b)
  {
    if b == [] {
      assert a + b == a;
    } else {
      assert (a + b)[..|a + b| - 1] == a + b[..|b| - 1];
      DecodableConcat(a, b[..|b| - 1]);
    }
  }

  lemma DecodedMore(logs: seq<RawLog>, log: RawLog)
    ensures Decoded(logs + [log]) == Decoded(logs) + if log.event.Some? then [log.event.value] else []
  {
    assert (logs + [log])[..|logs|] == logs;
  }

  lemma {:induction false} DecodedSplit(logs: seq<RawLog>, xs: seq<Event>, ys: seq<Event>) returns (k: nat)
    requires Decoded(logs) == xs + ys
    ensures k <= |logs| && Decoded(logs[..k]) == xs && Decoded(logs[k..]) == ys
  {
    if ys == [] {
      k := |logs|;
      assert logs[..k] == logs && xs + ys == xs;
    } else {
      var init, last := logs[..|logs| - 1], logs[|logs| - 1];
      var fewer := if last.event.Some? then ys[..|ys| - 1] else ys;
      assert Decoded(init) == xs + fewer by {
        if last.event.Some? {
          assert (xs + ys)[..|xs + ys| - 1] == xs + fewer && Decoded(logs)[..|Decoded(logs)| - 1] == Decoded(init);
        }
      }
      hide Decoded;
      k := DecodedSplit(init, xs, fewer);
      assert logs[..k] == init[..k] && logs[k..] == init[k..] + [last];
      DecodedMore(init[k..], last);
      DecodedMore(init, last);
      assert logs == init + [last];
      assert last.event.Some? ==> ys == fewer + [ys[|ys| - 1]] && (xs + ys)[|xs + ys| - 1] == ys[|ys| - 1];
    }
  }

  lemma CarriesSplit(logs: seq<RawLog>, a: seq<Event>, b: seq<Event>) returns (k: nat)
    requires Carries(logs, a + b)
    ensures k <= |logs| && logs == logs[..k] + logs[k..]
    ensures Carries(logs[..k], a) && Carries(logs[k..], b)
  {
    DecodableConcat(a, b);
    k := DecodedSplit(logs, Decodable(a), Decodable(b));
  }

  /** Logs that decode to nothing change nothing. */
  lemma {:induction false} NoLogs(m: Market, d: DerivedState, logs: seq<RawLog>)
    requires Carries(logs, [])
    ensures ApplyAll(m, d, logs) == Success(d)
  {
    if logs != [] {
      NoLogs(m, d, logs[..|logs| - 1]);
    }
  }

  /** Logs that decode to one event apply it, at the log that carries it. */
  lemma {:induction false} OneLog(m: Market, d: DerivedState, logs: seq<RawLog>, e: IndexedEvent) returns (log: RawLog)
    requires Carries(logs, [e])
    ensures log in logs && log.event == Some(e) && ApplyAll(m, d, logs) == ApplyEvent(m, d, log, e)
  {
    hide ApplyEvent;
    var n := |logs| - 1;
    assert Decodable([e]) == [e] by { assert [e][..0] == []; }
    if logs[n].event.Some? {
      log := logs[n];
      assert Decoded(logs[..n]) == [];
      NoLogs(m, d, logs[..n]);
    } else {
      log := OneLog(m, d, logs[..n], e);
    }
  }

  lemma AccruedMirrored(m: Market, c: Chain, now: nat, d: DerivedState, logs: seq<RawLog>)
    requires Sound(c.pool) && Mirrors(m, c, d) && AccrueInterest(c.pool, now).Success?
    requires Carries(logs, AccrueInterest(c.pool, now).value.events)
    ensures var q := Accrued(c.pool, now);
            var r := ApplyAll(m, d, logs);
            && Sound(q) && r.Success? && Mirrors(m, c.(pool := q), r.value)
            && (if AccrueInterest(c.pool, now).value.events == [] then q == c.pool && r.value == d
                else r.value.market.lastInterestTimestamp == q.lastUpdate)
  {
    hide Floor, Ceil, InterestSplit, Mirrors, Sound;
    if now > c.pool.lastUpdate {
      AccrualMirrored(m, c, now, d);
      var e := AccrueInterest(c.pool, now).value.events[0];
      assert AccrueInterest(c.pool, now).value.events == [e];
      var _ := OneLog(m, d, logs, e);
    } else {
      NoLogs(m, d, logs);
    }
  }

  /** The events a pool call emits after its accrual. */
  ghost predicate OwnEvents(m: Market, c: Chain, tx: Tx, own: seq<Event>) {
    && Transact(m, c, tx).Success?
    && AccrueInterest(c.pool, tx.now).Success?
    && Transact(m, c, tx).value.events == AccrueInterest(c.pool, tx.now).value.events + own
    && forall e :: e in own ==> !e.InterestAccrued?
  }

  lemma PositionCallMirrored(m: Market, c: Chain, tx: Tx, d: DerivedState, own: seq<Event>, logs: seq<RawLog>)
    requires m.weth != m.usdc && Books(c.pool)
    requires tx.call.SupplyCall? || tx.call.WithdrawCall? || tx.call.BorrowCall? || tx.call.RepayCall?
    requires OwnEvents(m, c, tx, own) && Carries(logs, own)
    requires Sound(Accrued(c.pool, tx.now)) && Mirrors(m, c.(pool := Accrued(c.pool, tx.now)), d)
    ensures var r := ApplyAll(m, d, logs);
            && r.Success? && Sound(Next(m, c, tx).after.pool) && Mirrors(m, Next(m, c, tx).after, r.value)
            && r.value.market.lastInterestTimestamp == d.market.lastInterestTimestamp
            && Next(m, c, tx).after.pool.lastUpdate == Accrued(c.pool, tx.now).lastUpdate
  {
    hide Floor, Ceil, AccrueInterest, SupplyUsdc, SupplyWeth, WithdrawUsdc, WithdrawWeth, BorrowUsdc, RepayUsdc,
         ApplySupplied, ApplyWithdrawn, ApplyBorrowed, ApplyRepaid, MirrorsUsers, ApplyAll;
    var p := Accrued(c.pool, tx.now);
    var prices := PricesAt(m, c.oracle, tx.now);
    var accrual := AccrueInterest(c.pool, tx.now).value.events;
    var e := Next(m, c, tx).events[|accrual|];
    assert own == [e] by { assert own == Next(m, c, tx).events[|accrual|..]; }
    var _ := OneLog(m, d, logs, e);
    match tx.call {
      case SupplyCall(sender, asset, amount) =>
        if asset == m.usdc {
          SupplyUsdcMirrored(m, p, d, sender, amount);
          SupplyUsdcEffect(p, sender, amount);
        } else {
          SupplyWethMirrored(m, p, d, sender, amount);
          CollateralEffect(p, prices, sender, amount);
        }
      case WithdrawCall(sender, asset, amount) =>
        if asset == m.usdc {
          WithdrawUsdcMirrored(m, p, d, sender, amount);
          WithdrawUsdcEffect(p, sender, amount);
        } else {
          WithdrawWethMirrored(m, p, prices, d, sender, amount);
          CollateralEffect(p, prices, sender, amount);
        }
      case BorrowCall(sender, asset, amount) =>
        BorrowMirrored(m, p, prices, d, sender, amount);
        BorrowEffect(p, prices, sender, amount);
      case RepayCall(sender, asset, amount) =>
        RepayMirrored(m, p, d, sender, amount);
        RepayEffect(p, sender, amount);
        ReduceDebtEffect(p, sender, RepayUsdc(p, sender, amount).value.repaidAmount);
    }
  }

  /** Which liquidation a call executes. */
  ghost predicate Executes(m: Market, c: Chain, tx: Tx, borrower: Address, liquidator: Address, repaid: nat,
                           seized: nat)
  {
    && (tx.call.LiquidateCall? || tx.call.ExecuteLiquidationCall?)
    && PoolCall(m, c, tx) == ExecuteLiquidation(m, c.pool, tx.now, borrower, liquidator, repaid, seized)
    && PoolCall(m, c, tx).Success?
  }

  /** What executing a liquidation leaves behind. */
  lemma ExecutionEffect(m: Market, c: Chain, tx: Tx, borrower: Address, liquidator: Address, repaid: nat, seized: nat)
    requires Executes(m, c, tx, borrower, liquidator, repaid, seized) && AccrueInterest(c.pool, tx.now).Success?
    ensures var seizure := SeizeCollateral(Accrued(c.pool, tx.now), borrower, repaid, seized);
            && seizure.Success?
            && Next(m, c, tx).after == c.(pool := seizure.value.after)
            && Next(m, c, tx).events ==
               AccrueInterest(c.pool, tx.now).value.events
               + ([Liquidated(liquidator, borrower, m.usdc, m.weth, repaid, seized)]
                  + if seizure.value.recognizedBadDebt != 0 then
                      [BadDebtRecognized(borrower, seizure.value.recognizedBadDebt)] else [])
  {
    hide AccrueInterest, SeizeCollateral, Liquidate;
  }

  /** The logs of a liquidation, applied to a mirror of the accrued storage. */
  lemma SeizureLogsMirrored(m: Market, p: Storage, d: DerivedState, logs: seq<RawLog>, liquidator: Address,
                            borrower: Address, repaid: nat, seized: nat)
    requires Sound(p) && MirrorsUsers(p, d) && MirrorsTotals(p, d.market)
    requires SeizeCollateral(p, borrower, repaid, seized).Success?
    requires var badDebt := SeizeCollateral(p, borrower, repaid, seized).value.recognizedBadDebt;
             Carries(logs, [Liquidated(liquidator, borrower, m.usdc, m.weth, repaid, seized)]
                           + if badDebt != 0 then [BadDebtRecognized(borrower, badDebt)] else [])
    ensures var q := SeizeCollateral(p, borrower, repaid, seized).value.after;
            var r := ApplyAll(m, d, logs);
            && r.Success? && Sound(q) && MirrorsUsers(q, r.value) && MirrorsTotals(q, r.value.market)
            && q.lastUpdate == p.lastUpdate
            && r.value.market == d.market.(totalScaledUsdcDebt := q.debts.total, protocolReserve := q.reserve,
                                           badDebt := q.badDebt, availableUsdcLiquidity := q.available,
                                           totalWethCollateral := q.collateral.total)
  {
    hide Floor, Ceil, SeizeCollateral, ScaledDebtBurn, ApplyLiquidated, ApplyBadDebtRecognized, MirrorsUsers,
         ApplyAll, BeforeWriteOff, Carries;
    var seizure := SeizeCollateral(p, borrower, repaid, seized).value;
    var e := Liquidated(liquidator, borrower, m.usdc, m.weth, repaid, seized);
    var f := if seizure.recognizedBadDebt != 0 then [BadDebtRecognized(borrower, seizure.recognizedBadDebt)] else [];
    var k := CarriesSplit(logs, [e], f);
    var first, rest := logs[..k], logs[k..];
    ApplyAllConcat(m, d, first, rest);
    var log := OneLog(m, d, first, e);
    SeizeMirrored(m, p, d, log, liquidator, borrower, repaid, seized);
    SeizeEffect(p, borrower, repaid, seized);
    var mid := ApplyLiquidated(d, log, liquidator, borrower, m.usdc, m.weth, repaid, seized).value;
    WriteOffMirrored(m, p, mid, borrower, repaid, seized);
    if seizure.recognizedBadDebt != 0 {
      var _ := OneLog(m, mid, rest, f[0]);
    } else {
      NoLogs(m, mid, rest);
    }
  }

  lemma LiquidationCallMirrored(m: Market, c: Chain, tx: Tx, d: DerivedState, logs: seq<RawLog>,
                                borrower: Address, liquidator: Address, repaid: nat, seized: nat)
    requires m.weth != m.usdc && Books(c.pool) && Executes(m, c, tx, borrower, liquidator, repaid, seized)
    requires AccrueInterest(c.pool, tx.now).Success?
    requires |AccrueInterest(c.pool, tx.now).value.events| <= |Next(m, c, tx).events|
    requires Carries(logs, Next(m, c, tx).events[|AccrueInterest(c.pool, tx.now).value.events|..])
    requires Sound(Accrued(c.pool, tx.now)) && Mirrors(m, c.(pool := Accrued(c.pool, tx.now)), d)
    ensures var r := ApplyAll(m, d, logs);
            && r.Success? && Sound(Next(m, c, tx).after.pool) && Mirrors(m, Next(m, c, tx).after, r.value)
            && r.value.market.lastInterestTimestamp == d.market.lastInterestTimestamp
            && Next(m, c, tx).after.pool.lastUpdate == Accrued(c.pool, tx.now).lastUpdate
  {
    hide AccrueInterest, SeizeCollateral, MirrorsUsers, MirrorsTotals, ApplyAll, Executes, Next, Carries, Sound,
         Accrued;
    ExecutionEffect(m, c, tx, borrower, liquidator, repaid, seized);
    var p := Accrued(c.pool, tx.now);
    var accrual := AccrueInterest(c.pool, tx.now).value.events;
    var badDebt := SeizeCollateral(p, borrower, repaid, seized).value.recognizedBadDebt;
    var own := [Liquidated(liquidator, borrower, m.usdc, m.weth, repaid, seized)]
               + if badDebt != 0 then [BadDebtRecognized(borrower, badDebt)] else [];
    assert Next(m, c, tx).events[|accrual|..] == own;
    SeizureLogsMirrored(m, p, d, logs, liquidator, borrower, repaid, seized);
  }

  /** Only the price rows of the mirror may change. */
  lemma PricesMirrored(m: Market, c: Chain, oracle: Oracle, d: DerivedState, d': DerivedState)
    requires Mirrors(m, c, d) && MirrorsPrices(m, oracle, d'.market)
    requires d'.positions == d.positions
    requires var k := d'.market;
             k == d.market.(wethPrice := k.wethPrice, wethPriceUpdatedAt := k.wethPriceUpdatedAt,
                            wethMaxPriceAge := k.wethMaxPriceAge, usdcPrice := k.usdcPrice,
                            usdcPriceUpdatedAt := k.usdcPriceUpdatedAt, usdcMaxPriceAge := k.usdcMaxPriceAge)
    ensures Mirrors(m, c.(oracle := oracle), d')
  {
    forall a ensures PositionOf(d', a) == PositionOf(d, a) {
    }
  }

  lemma PublicationUnknown(logs: seq<RawLog>, events: seq<Event>)
    requires events != [] && Carries(logs, events)
    requires forall i :: 0 < i < |events| ==> events[i].PricePublished?
    ensures Carries(logs, [events[0]])
    decreases |events|
  {
    if |events| > 1 {
      PublicationUnknown(logs, events[..|events| - 1]);
    } else {
      assert events == [events[0]];
    }
  }

  lemma OracleCallMirrored(m: Market, c: Chain, tx: Tx, d: DerivedState, logs: seq<RawLog>)
    requires m.weth != m.usdc && Mirrors(m, c, d) && Transact(m, c, tx).Success?
    requires tx.call.RegisterAssetCall? || tx.call.SetPriceCall? || tx.call.PublishPriceCall?
    requires Carries(logs, Next(m, c, tx).events)
    ensures var r := ApplyAll(m, d, logs);
            && r.Success? && Mirrors(m, Next(m, c, tx).after, r.value)
            && r.value.market.lastInterestTimestamp == d.market.lastInterestTimestamp
            && Next(m, c, tx).after.pool == c.pool
  {
    hide ApplyAll, PoolCall, MirrorsUsers, MirrorsTotals, Carries;
    var events := Next(m, c, tx).events;
    assert Carries(logs, [events[0]]) by { PublicationUnknown(logs, events); }
    var _ := OneLog(m, d, logs, events[0]);
    PricesMirrored(m, c, Next(m, c, tx).after.oracle, d, ApplyAll(m, d, logs).value);
  }

  /** One transaction: applying the logs of its events takes the mirror of the state before to a mirror of
      the state after, without any underflow or mismatch; only an accrual moves the timestamp, and when the
      transaction accrues the mirrored timestamp becomes the pool's. */
  lemma TransactionMirrored(m: Market, c: Chain, tx: Tx, d: DerivedState, logs: seq<RawLog>)
    requires m.weth != m.usdc && Sound(c.pool) && Mirrors(m, c, d)
    requires Carries(logs, Next(m, c, tx).events)
    ensures var next := Next(m, c, tx);
            var r := ApplyAll(m, d, logs);
            && r.Success? && Sound(next.after.pool) && Mirrors(m, next.after, r.value)
            && (if Accrues(next.events)
                then r.value.market.lastInterestTimestamp == next.after.pool.lastUpdate
                else r.value.market.lastInterestTimestamp == d.market.lastInterestTimestamp
                     && next.after.pool.lastUpdate == c.pool.lastUpdate)
  {
    hide Floor, Ceil, AccrueInterest, SupplyUsdc, SupplyWeth, WithdrawUsdc, WithdrawWeth, BorrowUsdc, RepayUsdc,
         SeizeCollateral, CalculateLiquidation, ValidatedPosition, Mirrors, Sound, ApplyAll;
    var next := Next(m, c, tx);
    if Transact(m, c, tx).Failure? {
      NoLogs(m, d, logs);
    } else if tx.call.RegisterAssetCall? || tx.call.SetPriceCall? || tx.call.PublishPriceCall? {
      OracleCallMirrored(m, c, tx, d, logs);
    } else {
      assert Books(c.pool) by { SoundBooks(c.pool); }
      var accrual := AccrueInterest(c.pool, tx.now).value.events;
      AccrualEvents(c.pool, tx.now);
      var own := next.events[|accrual|..];
      assert next.events == accrual + own;
      var k := CarriesSplit(logs, accrual, own);
      var first, rest := logs[..k], logs[k..];
      ApplyAllConcat(m, d, first, rest);
      AccruedMirrored(m, c, tx.now, d, first);
      var mid := ApplyAll(m, d, first).value;
      PoolCallMirrored(m, c, tx, mid, own, rest);
      if accrual != [] {
        assert next.events[0].InterestAccrued?;
      }
    }
  }

  lemma SoundBooks(p: Storage)
    requires Sound(p)
    ensures Books(p)
  {
  }

  lemma AccrualEvents(p: Storage, now: nat)
    requires AccrueInterest(p, now).Success?
    ensures var events := AccrueInterest(p, now).value.events;
            events == [] || (|events| == 1 && events[0].InterestAccrued?)
  {
  }

  lemma PoolCallMirrored(m: Market, c: Chain, tx: Tx, d: DerivedState, own: seq<Event>, logs: seq<RawLog>)
    requires m.weth != m.usdc && Books(c.pool) && Transact(m, c, tx).Success?
    requires !(tx.call.RegisterAssetCall? || tx.call.SetPriceCall? || tx.call.PublishPriceCall?)
    requires AccrueInterest(c.pool, tx.now).Success?
    requires Next(m, c, tx).events == AccrueInterest(c.pool, tx.now).value.events + own && Carries(logs, own)
    requires Sound(Accrued(c.pool, tx.now)) && Mirrors(m, c.(pool := Accrued(c.pool, tx.now)), d)
    ensures var r := ApplyAll(m, d, logs);
            && r.Success? && Sound(Next(m, c, tx).after.pool) && Mirrors(m, Next(m, c, tx).after, r.value)
            && r.value.market.lastInterestTimestamp == d.market.lastInterestTimestamp
            && Next(m, c, tx).after.pool.lastUpdate == Accrued(c.pool, tx.now).lastUpdate
    ensures forall e :: e in own ==> !e.InterestAccrued?
  {
    hide Floor, Ceil, AccrueInterest, SupplyUsdc, SupplyWeth, WithdrawUsdc, WithdrawWeth, BorrowUsdc, RepayUsdc,
         SeizeCollateral, CalculateLiquidation, ValidatedPosition, Mirrors, Sound, ApplyAll;
    var accrual := AccrueInterest(c.pool, tx.now).value.events;
    assert own == Next(m, c, tx).events[|accrual|..];
    match tx.call {
      case AccrueCall =>
        NoLogs(m, d, logs);
      case LiquidateCall(sender, borrower, _, _, requestedRepay, _) =>
        var prices := PricesAt(m, c.oracle, tx.now);
        var position := ValidatedPosition(c.pool, prices, tx.now, borrower).value;
        var sizing := CalculateLiquidation(prices, position.debt, position.collateral, requestedRepay).value;
        LiquidationCallMirrored(m, c, tx, d, logs, borrower, sender, sizing.repaidAmount, sizing.collateralSeized);
      case ExecuteLiquidationCall(borrower, liquidator, repaid, seized) =>
        LiquidationCallMirrored(m, c, tx, d, logs, borrower, liquidator, repaid, seized);
      case _ =>
        PositionCallMirrored(m, c, tx, d, own, logs);
    }
  }

  /** For every run of the deployed contracts and any logs carrying its events, folding the logs succeeds and
      mirrors the final state; the timestamp agrees once interest has accrued, and stays at zero before. */
  lemma {:induction false} ProjectorRefinesPool(m: Market, deployedAt: nat, txs: seq<Tx>, logs: seq<RawLog>)
    requires m.weth != m.usdc
    requires Carries(logs, Run(m, Genesis(deployedAt), txs).events)
    ensures var run := Run(m, Genesis(deployedAt), txs);
            var r := ApplyAll(m, CreateInitialState(), logs);
            && r.Success? && Sound(run.after.pool) && Mirrors(m, run.after, r.value)
            && (if Accrues(run.events)
                then r.value.market.lastInterestTimestamp == run.after.pool.lastUpdate
                else && r.value.market.lastInterestTimestamp == 0 && run.after.pool.lastUpdate == deployedAt
                     && run.after.pool.borrowIndex == run.after.pool.liquidityIndex == RAY)
            && r.value.liquidations == HistoryOf(logs) && Tells(r.value.liquidations, run.events)
  {
    HistoryTells(logs, Run(m, Genesis(deployedAt), txs).events);
    ApplyAllRecords(m, CreateInitialState(), logs);
    assert [] + HistoryOf(logs) == HistoryOf(logs);
    hide HistoryOf, Tells;
    if txs == [] {
      MirrorAtGenesis(m, deployedAt);
      NoLogs(m, CreateInitialState(), logs);
    } else {
      hide Next, Mirrors, Sound, ApplyAll, Genesis, CreateInitialState, Carries, Accrues;
      var c := Genesis(deployedAt);
      var mid := Run(m, c, txs[..|txs| - 1]);
      var last := Next(m, mid.after, txs[|txs| - 1]);
      assert Run(m, c, txs).events == mid.events + last.events && Run(m, c, txs).after == last.after;
      var k := CarriesSplit(logs, mid.events, last.events);
      AccruesSplit(mid.events, last.events);
      var first, rest := logs[..k], logs[k..];
      ProjectorRefinesPool(m, deployedAt, txs[..|txs| - 1], first);
      ApplyAllConcat(m, CreateInitialState(), first, rest);
      TransactionMirrored(m, mid.after, txs[|txs| - 1], ApplyAll(m, CreateInitialState(), first).value, rest);
      NextWithoutAccrual(m, mid.after, txs[|txs| - 1]);
    }
  }

  lemma MirrorAtGenesis(m: Market, deployedAt: nat)
    ensures Sound(Genesis(deployedAt).pool) && Mirrors(m, Genesis(deployedAt), CreateInitialState())
  {
  }
}
