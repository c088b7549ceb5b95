# A model of the WETH/USDC lending protocol and the services around it

The repository is a lending pool on an EVM chain (USDC lent against WETH collateral) together with the services that
mirror and drive it: an event indexer that follows a chain which may reorganise, a risk engine that proposes
liquidations, a liquidator and an oracle coordinator that share a database under leases, and a transaction manager
that assigns nonces, signs and rebroadcasts. This project models that logic and proves what it promises over whole
runs: of the contracts, of the chain, of the node's answers, of crashing processes and of interleaved workers.

`dafny verify dfyconfig.toml` checks everything.

## How it is laid out

* **Arithmetic.** `FixedPoint` defines `mulDiv` with directed rounding over unbounded naturals with explicit 256-bit
  overflow, and holds the rounding facts that all accounting rests on. `Uint256` proves the byte loops and the
  wrapping 512-bit intermediate against it.
* **Contracts.** `Pool`, `LiquidationManager`, `RiskManager`, `InterestRateModel` and `Ledgers` are the contracts as
  functions from storage to storage, a failure being a revert; `LendingPool` is the same storage as mutable classes
  that update field by field and roll back, proved equal to the functions. `Protocol` runs arbitrary transactions from
  deployment. `AccrualSoundness`, `PoolEffects`, `PoolOutcomes` (when each call succeeds, and why it reverts otherwise),
  `Accounting`, `Positions` and `RoundingProfit` hold the theorems;
  `Scenario` holds concrete runs from deployment that show where an expectation fails.
* **Mirror.** `StateProjector` is the event fold, `Projection` the object that mutates the derived state in place,
  `ProjectorRefinement` the proof that folding a run's events gives the pool's state. `IndexerStore` and `Indexer`
  are the tables and the sync loop. `IndexedMirror` composes the two: a synced store mirrors the contracts.
* **Risk engine.** `RiskCalculator`; `EnginePrediction` (what the chain accepts was predicted) and `ProposalOutcome`
  (when the chain accepts what is proposed).
* **Operations.** `TxJobs`, `TxOutcomes`, `TxSafety`, `TxReplacement`, `TxInterleaving`, `TxManager`; `LiquidationJobs`, `LeaseSafety`,
  `LiquidationJobStore`; `OracleLedger`, `OracleSafety`. A database transaction is one atomic step; a crash may fall
  between any two effects; clock readings of different transactions need not be in order.
* **Encoding.** `Rlp` (Appendix B of the Ethereum Yellow Paper) and `Transactions` (EIP-1559).

Where a source object changes state, a class does the same and its methods are proved against the functions; the
theorems are about the functions. What an operation computes is stated apart from its body: by products instead of
rounded quotients, as the greatest or least of what is allowed, in closed form with the protocol's numbers written out,
or by the exact condition of every error.

## Findings

Each is a property the code does not have as promised: a reachable input that breaks it, and the exact condition.

* The exact USDC identity asserted by contracts/test/LendingMvpInvariant.t.sol:189-194 is a fact about one borrower.
  `Scenario.TwoDebtorsDrift` is a run of nine ordinary calls, for every deployment time: the identity holds after
  eight and the ninth, a second borrower's borrow, breaks it by one base unit. A transaction moves the identity by
  exactly `Drift`, the difference between rounding its change of scaled debt on the total and on the user, read off the
  accrued storage before the call (`Accounting.GapMovesByDrift`); in every run the identity holds if and only if these
  drifts add up to zero (`Accounting.IdentityIff`). `Accounting.GapDriftsByAtMostOnePerDebtMove` bounds them, and
  `Accounting.SoleDebtorIdentity` proves the identity while at most one account holds debt. The views project
  interest whose reserve share is only booked at the next accrual: they show the identity if and only if the debt, at the
  index that the elapsed time gives, still rounds to what it was (`Accounting.SoleDebtorViews`).
* The risk engine projects from time zero until the first `InterestAccrued`, because the pool's deployment time is
  never emitted. Before the first accrual it projects the pool's borrow index if and only if there is no debt or the
  pool was deployed at time zero (`RiskCalculator.IndicesAgreeIff`); from the first accrual on it always does.
  `Scenario.HealthDiffersBeforeFirstAccrual` is a run after which the contracts call a borrower healthy and the engine
  calls the same borrower liquidatable.
* Even when it knows the time, the engine may propose a liquidation that the chain rejects, for two reasons. The engine and the manager test for a
  zero seizure on different sides of the collateral override, and the pool refuses a partial repayment worth less than
  one scaled unit, which neither of them checks. For every run, once interest has accrued, the liquidator's call for a
  proposal succeeds if and only if the repayment's worth in collateral does not round to zero, the repayment is the
  whole debt or at least one scaled unit at the accrued index, and nothing overflows 256 bits; each failing condition has
  its error (`ProposalOutcome.EngineProposalDecided`). `Scenario.RejectedAfterCrash` is a run after which the manager
  rejects what the engine proposes, `Scenario.RejectedAfterSlump` one after which the manager sizes it and the pool
  reverts.
* The store keeps one contiguous canonical chain under any block exactly when the committed hash is not already
  canonical (`IndexerStore.CommitKeepsChainIff`). That is all `Indexer.Indexer.SyncIteration` asks of the node's
  headers.
* The transaction manager's retry flag is "the error text is not empty". Against a node that rejects with an empty text
  a manager that retries at all broadcasts a job any number of times (`TxReplacement.EmptyTextsAreUnbounded`); the
  bound holds for a given text if and only if the text is not empty or no retries are configured
  (`TxReplacement.BoundHoldsIff`).

## Model

| member | source | states |
|---|---|---|
| `FixedPoint.FloorGreatest` | contracts/src/libraries/MathLib.sol:18-20 | rounding down gives the greatest quotient that fits the product |
| `FixedPoint.CeilLeast` | contracts/src/libraries/MathLib.sol:24-26 | rounding up gives the least quotient that covers the product |
| `FixedPoint.SplitSum` | contracts/src/LendingPool.sol:477-483 | splitting a scaled balance moves its rounded value by the part's own value, rounded one way or the other |
| `FixedPoint.RoundTrip` | contracts/src/LendingPool.sol:293-326 | scaling down and reading back never gains, scaling up and reading back never loses |
| `Ledgers.MintEffect` | contracts/src/tokens/DebtToken.sol:51-53 | minting changes one balance, and the total stays the sum of the balances |
| `Ledgers.BurnEffect` | contracts/src/tokens/DebtToken.sol:55-57 | burning up to a balance succeeds, changes only it, and the total stays the sum |
| `Ledgers.SoleHolder` | contracts/src/tokens/DebtToken.sol:34-49 | an account that alone holds a balance holds the total |
| `InterestRateModel.RatesAreSound` | contracts/src/InterestRateModel.sol:17-44 | the rates are defined on every market that fits 256 bits, stay within their range, and suppliers get at most the share the reserve leaves |
| `InterestRateModel.BorrowRateMonotone` | contracts/src/InterestRateModel.sol:22-32 | more utilization never lowers the borrow rate, across the kink too |
| `InterestRateModel.CurveMeaning` | contracts/src/InterestRateModel.sol:9-32 | the curve is 2% plus a tenth of the utilization up to 80%, and 10% plus five times the excess beyond it, exactly; more than full utilization is refused |
| `InterestRateModel.UtilizationMeaning` | contracts/src/InterestRateModel.sol:17-20 | utilization is the lent share of all liquidity rounded down, by products; zero for an empty pool |
| `RiskManager.DebtNeedsCollateral` | contracts/src/RiskManager.sol:60-72 | without collateral nothing can be borrowed and no debt is healthy |
| `RiskManager.ValueMeaning` | contracts/src/RiskManager.sol:34-37 | collateral is worth its amount times the eight-decimal price, rounded down, by products |
| `RiskManager.CapacityMeaning` | contracts/src/RiskManager.sol:60-62 | a debt is within the borrow limit if and only if its value is at most 75% of the collateral's |
| `RiskManager.HealthMeaning` | contracts/src/RiskManager.sol:66-73 | a health factor is at least one if and only if the debt's value is at most 80% of the collateral's |
| `AccrualSoundness.CapIsGreatestIndex` | contracts/src/LendingPool.sol:468-475 | an index keeps the floored supplier claim within the limit if and only if it is at most the returned cap |
| `AccrualSoundness.CapNeverUnderflows` | contracts/src/LendingPool.sol:468-475 | the cap's `- 1` never underflows; only overflow can revert |
| `AccrualSoundness.CappedIndexSound` | contracts/src/LendingPool.sol:448-466 | the capped index lies between the current and the projected one, and is exactly the greatest that gives suppliers at most 90% of the debt interest, rounded down |
| `AccrualSoundness.ProjectionSound` | contracts/src/LendingPool.sol:424-446 | for every state and elapsed time the projection overflows, or the borrow index is the closed form of curve, utilization and elapsed seconds, and suppliers get the greatest index that the full rate and the 90% limit allow |
| `AccrualSoundness.AccrualIsSound` | contracts/src/LendingPool.sol:395-422 | accrual overflows or succeeds: the borrow index has its closed form, suppliers get the greatest index that the full rate and the 90% limit allow, indices never fall and stay at least one RAY, the reserve gets exactly the difference and never underflows |
| `PoolEffects.SupplyUsdcEffect` | contracts/src/LendingPool.sol:293-305 | a supply mints at most its worth, sends the rounding dust to the reserve and leaves the accounting gap unchanged |
| `PoolEffects.WithdrawUsdcEffect` | contracts/src/LendingPool.sol:307-326 | a withdrawal burns at least its worth, within balance and liquidity, and leaves the gap unchanged |
| `PoolEffects.WithdrawalWithinClaimIsNeverTooSmall` | contracts/src/LendingPool.sol:307-326 | no positive withdrawal is ever rejected as too small in scaled units |
| `PoolEffects.CollateralEffect` | contracts/src/LendingPool.sol:328-349 | WETH moves touch one collateral balance and nothing else |
| `PoolEffects.BorrowEffect` | contracts/src/LendingPool.sol:165-201 | a borrow mints at least its worth against existing collateral, and the gap moves by the difference of the two roundings, at most one unit |
| `PoolEffects.DebtBurnEffect` | contracts/src/LendingPool.sol:382-393 | what remains after a repayment is at least the difference and exceeds it by at most one scaled unit's worth; a full repayment leaves nothing |
| `PoolEffects.ReduceDebtEffect` | contracts/src/LendingPool.sol:203-230 | reducing a debt returns the dust to the reserve and moves the gap by at most one unit |
| `PoolEffects.RepayEffect` | contracts/src/LendingPool.sol:203-230 | a repayment is capped by the debt and leaves nothing or at least the minimum |
| `PoolEffects.SeizeEffect` | contracts/src/LendingPool.sol:248-291 | a liquidation stays within debt and collateral, turns debt left without collateral into bad debt, and moves the gap by at most one unit |
| `PoolOutcomes.SupplyOutcome` | contracts/src/LendingPool.sol:293-305 | a supply succeeds if and only if it is worth a scaled unit and neither claims, liquidity nor reserve overflow; each error only for its reason |
| `PoolOutcomes.WithdrawOutcome` | contracts/src/LendingPool.sol:307-326 | a withdrawal succeeds if and only if it is within claim and liquidity and nothing overflows; each error only for its reason |
| `PoolOutcomes.BorrowOutcome` | contracts/src/LendingPool.sol:165-201 | a borrow succeeds if and only if it is within the liquidity, both prices are known, the new debt is worth at most 75% of the collateral and nothing overflows; each error only for its reason, and never for its health |
| `PoolOutcomes.BorrowStaysWithinCapacity` | contracts/src/LendingPool.sol:180-186 | after a borrow the debt is worth at most 75% of the collateral, by products, and its health is at least one |
| `PoolOutcomes.RepayOutcome` | contracts/src/LendingPool.sol:203-230 | a repayment succeeds if and only if there is debt, it is the whole debt or worth a scaled unit, it leaves nothing or at least 1 USDC, and nothing overflows; each error only for its reason |
| `PoolOutcomes.WithdrawWethOutcome` | contracts/src/LendingPool.sol:328-347 | collateral can be withdrawn if and only if it is there, what is left keeps the debt within 80% of its value, and nothing overflows; each error only for its reason |
| `PoolOutcomes.WithdrawWethStaysHealthy` | contracts/src/LendingPool.sol:328-347 | after withdrawing collateral a debt is worth at most 80% of what is left, by products, and its health is at least one |
| `PoolOutcomes.SeizeOutcome` | contracts/src/LendingPool.sol:248-291 | a seizure within the position reverts as too small exactly when it is partial and worth less than one scaled unit, overflows exactly when liquidity, reserve or bad debt would, and succeeds otherwise |
| `PoolOutcomes.TransactionOutcome` | contracts/src/LendingPool.sol:147-291 | every call but the manager's, to pool or oracle, succeeds if and only if no error applies to it, and reverts only with an error that does, each error having its condition on arguments, prices and accrued storage |
| `PoolOutcomes.BorrowersStayHealthy` | contracts/src/LendingPool.sol:165-246 | in every run, whoever borrows, or withdraws collateral while in debt, is healthy after the call, within 75% and 80% of the collateral's worth |
| `PoolOutcomes.RoundsIncrease` | contracts/src/PriceOracle.sol:67-89 | in every run the published rounds of an asset strictly increase |
| `LiquidationManager.CollateralCoversCap` | contracts/src/LiquidationManager.sol:94-99 | the collateral-limited repayment and its bonus are worth at most the collateral |
| `LiquidationManager.SeizedBelowCollateral` | contracts/src/LiquidationManager.sol:110-112 | a repayment below that cap seizes strictly less than the collateral |
| `LiquidationManager.SizingFitsPosition` | contracts/src/LiquidationManager.sol:84-118 | for every debt, request and collateral, sizing repays at most debt and request, seizes all collateral exactly when collateral-limited and less otherwise, and leaves no dust |
| `LiquidationManager.SizingIsGreatest` | contracts/src/LiquidationManager.sol:84-118 | sizing repays the most within the request, half of the debt (all of it when half would leave less than 1 USDC) and what the collateral covers at 105%, but for amounts that leave dust; all collateral goes exactly when it covers no more than request and close factor allow |
| `LiquidationManager.SizingTooSmall` | contracts/src/LiquidationManager.sol:84-118 | sizing finds nothing to do only when every allowed repayment leaves dust, or the chosen one seizes nothing |
| `LiquidationManager.SeizureIsGreatest` | contracts/src/LiquidationManager.sol:109-112 | what a repayment seizes is worth at most 105% of it, and one wei more would be worth more, up to the rounding of the bonus, by products |
| `LiquidationManager.SizingNeverUnderflows` | contracts/src/LiquidationManager.sol:84-118 | on a debt of at least the minimum the dust rule never underflows |
| `Protocol.GapMovesByAtMostOne` | contracts/src/LendingPool.sol:147-291 | every transaction keeps the books, and moves the gap only if it touches a debt, by at most one base unit |
| `Protocol.AccruedBooks` | contracts/src/LendingPool.sol:395-422 | accrual changes neither balances nor the gap |
| `Protocol.BooksAlways` | contracts/src/LendingPool.sol:147-291 | in every state of every run totals are sums of balances and indices are at least one RAY |
| `Protocol.NextWithoutAccrual` | contracts/src/LendingPool.sol:395-422 | a transaction that reports no accrual leaves both indices and the accrual time as they were, and one that does comes in a later block |
| `Accounting.GapDriftsByAtMostOnePerDebtMove` | contracts/src/LendingPool.sol:165-326 | over any run the gap is at most the number of successful borrows, repayments and liquidations |
| `Accounting.SoleDebtorKeepsGap` | contracts/src/LendingPool.sol:165-291 | with one debtor before and after, a transaction does not move the gap |
| `Accounting.SoleDebtorIdentity` | contracts/test/LendingMvpInvariant.t.sol:189-194 | while at most one account holds debt, liquidity plus debt plus bad debt equals claims plus reserve, exactly, in every state of every run |
| `Accounting.SoleDebtorViews` | contracts/test/LendingMvpInvariant.t.sol:189-194 | as the views show it at a block time, claims never exceed assets, and they are equal if and only if the debt at the index that elapsed time, utilization and rate give still rounds to the stored one: always in an accrued block and without debt, never once the interest is worth a base unit |
| `Accounting.GapMovesByDrift` | contracts/src/LendingPool.sol:165-291 | every transaction moves the gap by exactly the amount by which its change of scaled debt, read off the accrued storage before the call, rounds differently on the total than on the user |
| `Accounting.IdentityIff` | contracts/test/LendingMvpInvariant.t.sol:189-194 | in every run the identity holds if and only if the drifts of its transactions add up to zero |
| `Scenario.TwoDebtorsDrift` | contracts/src/LendingPool.sol:180-192 | whenever the pool is deployed, the identity holds after the first eight calls of a concrete run, and the ninth, a second borrower's borrow, succeeds and breaks it by one base unit |
| `Positions.ManagerReadsAccruedDebt` | contracts/src/LendingPool.sol:104-106 | the debt the manager sizes against is the one the pool finds after accruing |
| `Positions.SeizureBacked` | contracts/src/LendingPool.sol:248-291 | a manager-sized seizure leaves every account without debt or backed |
| `Positions.ManagerFitsPool` | contracts/src/LiquidationManager.sol:51-118 | from backed positions the manager's amounts always fit the pool's debt and collateral |
| `Positions.LiquidationLimitsUnreachable` | contracts/src/LendingPool.sol:257-282 | no call through the manager ever meets the pool's exceeds-debt or exceeds-collateral revert |
| `Positions.BackedKept` | contracts/src/LendingPool.sol:147-347 | every transaction but a direct liquidation keeps all positions backed |
| `Positions.ReachablePositionsAreBacked` | contracts/src/LendingPool.sol:147-347 | when only the manager liquidates, every account with performing debt has collateral and owes at least 1 USDC, in every state of every run |
| `RoundingProfit.TransactionGivesNoProfit` | contracts/src/LendingPool.sol:293-326 | one transaction raises exact debt by at least the principal its events report, and at a fixed index the exact claim by at most the deposits |
| `RoundingProfit.NoRoundingProfit` | contracts/src/LendingPool.sol:293-393 | over any run scaled debt times index covers borrowed less repaid, liquidated and written off; at a fixed index a claim never outgrows deposits |
| `RoundingProfit.WithdrawnAtMostSupplied` | contracts/src/LendingPool.sol:307-326 | at a fixed index a new supplier never withdraws more than was supplied |
| `LendingPool.LendingPool.constructor` | contracts/src/LendingPool.sol:81-97 | deployment starts empty, with both indices at one RAY and the clock at the block time |
| `LendingPool.LendingPool.Accrue` | contracts/src/LendingPool.sol:395-422 | accruing in place gives the specified storage and event |
| `LendingPool.LendingPool.Supply` | contracts/src/LendingPool.sol:147-163 | the call gives the specified storage and events, or reverts and leaves the storage as it was |
| `LendingPool.LendingPool.Borrow` | contracts/src/LendingPool.sol:165-201 | the call gives the specified storage and events, or reverts and leaves the storage as it was |
| `LendingPool.LendingPool.Repay` | contracts/src/LendingPool.sol:203-230 | the call gives the specified storage and events, or reverts and leaves the storage as it was |
| `LendingPool.LendingPool.Withdraw` | contracts/src/LendingPool.sol:232-246 | the call gives the specified storage and events, or reverts and leaves the storage as it was |
| `LendingPool.LendingPool.ExecuteLiquidation` | contracts/src/LendingPool.sol:248-291 | the call gives the specified storage and events and returns the bad debt recognized, or reverts and leaves the storage as it was |
| `LendingPool.LiquidationManager.Calculate` | contracts/src/LiquidationManager.sol:84-118 | reassigning the limits in sequence computes the specified sizing |
| `LendingPool.LiquidationManager.Liquidate` | contracts/src/LiquidationManager.sol:51-71 | validates, sizes and executes through the pool, returning the three amounts that the storage moved by, or reverts and leaves the pool as it was |
| `ProjectorRefinement.AccrualMirrored` | cpp/indexer/src/StateProjector.cpp:256-263 | the accrual event carries exactly what the mirror needs |
| `ProjectorRefinement.SupplyUsdcMirrored` | cpp/indexer/src/StateProjector.cpp:137-170 | from the amount alone the projector re-derives the scaled mint and the reserve dust |
| `ProjectorRefinement.WithdrawUsdcMirrored` | cpp/indexer/src/StateProjector.cpp:171-207 | it re-derives the scaled burn, also when the whole claim is withdrawn, and drops an emptied row |
| `ProjectorRefinement.BorrowMirrored` | cpp/indexer/src/StateProjector.cpp:208-227 | it re-derives the scaled debt and the dust |
| `ProjectorRefinement.RepayMirrored` | cpp/indexer/src/StateProjector.cpp:228-255 | it re-derives the burn, and its consistency check against the reported remainder never fails |
| `ProjectorRefinement.SeizeMirrored` | cpp/indexer/src/StateProjector.cpp:264-301 | it re-derives the burn of a liquidation from the repaid amount |
| `ProjectorRefinement.WriteOffMirrored` | cpp/indexer/src/StateProjector.cpp:302-312 | the bad-debt event clears exactly the debt the pool wrote off |
| `ProjectorRefinement.OracleCallMirrored` | cpp/indexer/src/StateProjector.cpp:313-343 | price and registration events mirror the oracle, the publication event being unknown to the decoder |
| `ProjectorRefinement.TransactionMirrored` | cpp/indexer/src/StateProjector.cpp:126-345 | the events of any transaction, among any logs that decode to nothing, take a mirror to a mirror, without underflow or mismatch |
| `ProjectorRefinement.ProjectorRefinesPool` | cpp/indexer/src/StateProjector.cpp:72-345 | for every run, folding the logs, among any that decode to nothing, succeeds and gives exactly the pool's positions, totals, liquidity, reserve, bad debt, indices and prices, with no empty row, and one liquidation row per liquidation of the run, in order, with its place and its figures; the timestamp agrees from the first accrual on, and is zero before |
| `StateProjector.ApplyAllRecords` | cpp/indexer/src/StateProjector.cpp:286-298 | whatever the logs, the history is exactly one row per log that decodes to a liquidation, in order, with the log's block number, block hash, transaction hash and index and the event's six fields |
| `StateProjector.RepaidChecksRemainder` | cpp/indexer/src/StateProjector.cpp:228-255 | a repayment is applied only if the re-derived debt is the reported remainder |
| `Projection.Projection.OnEvent` | cpp/indexer/src/StateProjector.cpp:126-345 | mutating the derived state in place is the event fold |
| `Projection.Projection.OnWithdrawn` | cpp/indexer/src/StateProjector.cpp:171-207 | the in-place withdrawal, of collateral or of a claim, with its early exits, is the specified one |
| `Projection.Projection.OnLiquidated` | cpp/indexer/src/StateProjector.cpp:264-301 | the in-place liquidation, with the recorded row, is the specified one, whose row `StateProjector.ApplyAllRecords` spells out |
| `Projection.Projection.Replay` | cpp/indexer/src/StateProjector.cpp:110-124 | applying logs one by one is the fold, stopping at the first failure |
| `Projection.Rebuild` | cpp/indexer/src/StateProjector.cpp:81-115 | filtering, sorting and folding gives the fold in the one tie-free replay order, whatever order the logs come in |
| `ReplayOrder.SortedUniquely` | cpp/indexer/src/StateProjector.cpp:94-108 | without ties there is only one sorted order |
| `ReplayOrder.ThroughIsPrefix` | cpp/indexer/src/PostgresStore.cpp:334-367 | in replay order the logs up to a block are a prefix |
| `IndexerStore.CommitKeepsConsistency` | cpp/indexer/src/PostgresStore.cpp:502-596 | committing the next linked block keeps one contiguous canonical chain up to the cursor, one block per height, and a derived state equal to the replay of the canonical logs; the height index never objects |
| `IndexerStore.CommitKeepsChainIff` | cpp/indexer/src/PostgresStore.cpp:502-596 | the chain survives a commit if and only if the hash was not already canonical |
| `IndexerStore.RewindKeepsConsistency` | cpp/indexer/src/PostgresStore.cpp:598-670 | rewinding to a block of the chain keeps all that on the shortened chain, and the replay up to it cannot fail |
| `IndexerStore.RewindRemembers` | cpp/indexer/src/PostgresStore.cpp:598-670 | a rewind deletes no block and no log, and changes only canonical flags |
| `IndexerStore.CommitRemembers` | cpp/indexer/src/PostgresStore.cpp:502-596 | a commit leaves every row of another block as it was |
| `Indexer.PostgresStore.CommitBlock` | cpp/indexer/src/PostgresStore.cpp:502-596 | the upserts give the specified tables, or the unique index leaves them as they were |
| `Indexer.PostgresStore.RewindTo` | cpp/indexer/src/PostgresStore.cpp:598-670 | the updates give the specified tables |
| `Indexer.PostgresStore.LoadCanonicalBlock` | cpp/indexer/src/PostgresStore.cpp:306-332 | the canonical block of a height, if there is one |
| `Indexer.PostgresStore.LoadCanonicalLogsThrough` | cpp/indexer/src/PostgresStore.cpp:334-367 | the canonical logs up to a block, in replay order |
| `Indexer.FetchLogs` | cpp/indexer/src/Indexer.cpp:141-172 | sorting by log index and dropping removed logs gives the block's rows in strict replay order; it fails if and only if a log that is not removed belongs to another block |
| `Indexer.Indexer.FindCommonAncestor` | cpp/indexer/src/Indexer.cpp:105-127 | the highest stored block the node still has, at or below the bound; it fails only with the failure of a header read it made |
| `Indexer.Indexer.Rewind` | cpp/indexer/src/Indexer.cpp:129-139 | the store goes back to the ancestor with its state rebuilt, which cannot fail |
| `Indexer.Indexer.IndexBlock` | cpp/indexer/src/Indexer.cpp:141-194 | adds the next block with its logs and state; it fails, changing nothing, if and only if the logs cannot be read, one belongs to another block, or they do not apply to the state |
| `Indexer.Indexer.ReconcileCursor` | cpp/indexer/src/Indexer.cpp:76-103 | rewinds if and only if the node no longer has the cursor's block, and then to the highest block it still has; it fails only with the failure of a header read at or below the head |
| `Indexer.Indexer.RewindToHighest` | cpp/indexer/src/Indexer.cpp:58-103 | goes back to the highest stored block, at or below the head, that the node still has, with exactly the logs up to it |
| `Indexer.Indexer.SyncIteration` | cpp/indexer/src/Indexer.cpp:27-66 | under any answers of the node, exceptions included, as long as the one header the pass reads as the next block's does not have the hash of a canonical block below it, one pass keeps one contiguous canonical chain and a derived state equal to the replay of its logs; it first keeps the chain, or what ends at the highest block the node still has, and then leaves that unchanged without a next block or on a failure, adds the block of the header read with its logs if it links, and otherwise goes back to the highest block the node still has at the second search; reorganisations, head and indexed height are counted accordingly; it fails only when a read fails or the next block cannot be indexed |
| `Indexer.Indexer.SyncToHead` | cpp/indexer/src/Indexer.cpp:25-69 | against a chain that stands still during the call, from any stored chain: terminates, succeeds if and only if the node's logs replay, rewinds at most once and only if the stored chain had left the node's, and then ends with exactly the node's blocks and the replay of their logs |
| `IndexedMirror.SyncMirrorsPool` | cpp/indexer/src/Indexer.cpp:25-69 | if the node's blocks carry the events of a run of the contracts, among any logs that decode to nothing, syncing succeeds from any stored chain and leaves in the store the pool's and the oracle's state after that run, with the time of the last accrual, or zero before the first, and one row per liquidation, in order |
| `RiskCalculator.FreshPricesAgree` | cpp/risk-engine/src/RiskCalculator.cpp:172-190 | the engine accepts a mirrored price if and only if the oracle does, up to a zero stamp or a 64-bit age |
| `RiskCalculator.IndicesAgree` | cpp/risk-engine/src/RiskCalculator.cpp:128-160 | with the pool's accrual time indexed, as from the first accrual on, or without debt, the engine projects the pool's borrow index |
| `RiskCalculator.IndicesAgreeIff` | cpp/risk-engine/src/RiskCalculator.cpp:128-160 | in every run without an accrual the engine, from the logs, projects the pool's borrow index if and only if there is no debt or the pool was deployed at time zero |
| `RiskCalculator.HealthAgrees` | cpp/risk-engine/src/RiskCalculator.cpp:192-268 | with fresh prices the engine's debt, values, borrow limit, health factor and liquidation flag are the contracts' at the same block time, with or without debt |
| `RiskCalculator.DebtFreeRisk` | cpp/risk-engine/src/RiskCalculator.cpp:192-215 | a position without debt is valued at the last indexed price, fresh or not, and at nothing before the first, with 75% of it as borrow limit, and is never liquidatable |
| `Scenario.HealthDiffersBeforeFirstAccrual` | cpp/indexer/src/StateProjector.cpp:72-79 | after a concrete run in the deployment block the contracts find a borrower healthy, and the engine, from the logs of that run, finds more debt and the position liquidatable |
| `RiskCalculator.CandidateMatchesSizing` | cpp/risk-engine/src/RiskCalculator.cpp:270-361 | whenever the manager's sizing accepts, the engine proposes the same repayment and seizure; sizing accepts a proposal if and only if the seizure before the override is not zero |
| `RiskCalculator.RejectedProposal` | cpp/risk-engine/src/RiskCalculator.cpp:333-340 | a concrete unhealthy position for which the engine proposes a liquidation, while the manager rejects any requested repayment as too small |
| `Scenario.RejectedAfterCrash` | cpp/risk-engine/src/RiskCalculator.cpp:333-340 | after a concrete run the engine, from the logs, proposes a liquidation of a position, and every call that liquidates it reverts |
| `Scenario.RejectedAfterSlump` | contracts/src/LendingPool.sol:382-393 | whenever the pool is deployed, after a concrete run the engine, from the logs, proposes a liquidation that the manager sizes with a seizure that is not zero, and every call for it reverts in the pool as below one scaled unit |
| `RiskCalculator.BadDebtPrediction` | cpp/risk-engine/src/RiskCalculator.cpp:345-345 | for every position with debt and collateral, the predicted bad debt is at most the recognized one and low by at most one scaled unit's worth |
| `RiskCalculator.CandidateBonus` | cpp/risk-engine/src/RiskCalculator.cpp:342-344 | the expected bonus is the seized value beyond the repaid one, at most five percent unless the collateral is exhausted |
| `RiskCalculator.ComputeCandidate` | cpp/risk-engine/src/RiskCalculator.cpp:270-361 | the sequence of reassignments computes the specified candidate |
| `EnginePrediction.EnginePredictsLiquidation` | cpp/risk-engine/src/RiskCalculator.cpp:253-361 | for every run with an accrual: when the chain accepts a liquidation, the engine, from logs alone, predicted its amounts, and its bad debt to one scaled unit |
| `ProposalOutcome.SizedCallOutcome` | contracts/src/LiquidationManager.sol:51-71 | once the manager has sized a liquidation, the call succeeds with those amounts if and only if it is not below one scaled unit and neither accrual nor the sums overflow, with the error of each case |
| `ProposalOutcome.ManagerOutcome` | contracts/src/LiquidationManager.sol:51-118 | a call to the manager succeeds if and only if no error applies to it, and reverts only with an error that does: wrong arguments, no debt, no collateral, unknown prices, a debt within 80% of the collateral's value, a sizing that fails, too little collateral out, less than a scaled unit, or an overflow |
| `ProposalOutcome.ProposalIsStable` | cpp/risk-engine/src/RiskCalculator.cpp:270-361 | asking for the repayment that was proposed gives the same proposal |
| `ProposalOutcome.EngineProposalDecided` | cpp/liquidator/src/Liquidator.cpp:20-37 | for every run with an accrual and every proposal made from its logs, the liquidator's call succeeds with the proposed amounts if and only if the repayment's worth in collateral is not zero, the repayment is the whole debt or worth one scaled unit, and nothing overflows; each failing condition has its error |
| `Uint256.FromBytes` | cpp/common/src/Uint256.cpp:91-100 | the checked accumulator never overflows and holds the big-endian value |
| `Uint256.ToBytes` | cpp/common/src/Uint256.cpp:102-114 | the 32 bytes have the given value |
| `Uint256.WriteAndRead` | cpp/common/src/Uint256.cpp:91-114 | reading back what was written gives the same word, and no other 32 bytes do |
| `Uint256.ToWide` | cpp/common/src/Uint256Math.cpp:15-24 | the wrapping 512-bit accumulator holds the word itself |
| `Uint256.FromWide` | cpp/common/src/Uint256Math.cpp:26-42 | returns the value, or throws exactly when it needs more than 256 bits |
| `Uint256.ComputeMulDivDown` | cpp/common/src/Uint256Math.cpp:46-58 | the exact floor for all 256-bit inputs, or the exceptions for a zero denominator and a result beyond 256 bits |
| `Uint256.ComputeMulDivUp` | cpp/common/src/Uint256Math.cpp:60-75 | the exact ceiling, with the same exceptions |
| `Uint256.MulDivMeaning` | cpp/common/src/Uint256Math.cpp:46-75 | both results characterized by multiplication alone, and the overflow exception by an exact bound on the product |
| `Rlp.ComputeLengthBytes` | cpp/common/src/Rlp.cpp:13-23 | shifting and reversing gives the minimal big-endian digits |
| `Rlp.ComputePayload` | cpp/common/src/Rlp.cpp:25-39 | the short or long header, then the payload |
| `Rlp.ComputeBytes` | cpp/common/src/Rlp.cpp:43-50 | a byte string's encoding, a single low byte standing for itself |
| `Rlp.ComputeUint256` | cpp/common/src/Rlp.cpp:52-62 | an integer is encoded as its minimal digits, zero as the empty string |
| `Rlp.ComputeList` | cpp/common/src/Rlp.cpp:64-72 | a list's encoding is the header over the concatenated items |
| `Rlp.IntegerDecodes` | cpp/common/src/Rlp.cpp:52-62 | the decoder recovers every encoded integer |
| `Rlp.DecodesItem` | cpp/common/src/Rlp.cpp:25-72 | the decoder recovers every encoded string and nested list, whatever follows it |
| `Rlp.EncodingIsPrefixFree` | cpp/common/src/Rlp.cpp:25-72 | no encoding is another's, or a proper prefix of another's |
| `Transactions.ComputeUnsignedItems` | cpp/common/src/Transaction.cpp:41-54 | the nine encoded fields, an absent destination as the empty string |
| `Transactions.EncodeSigningPayload` | cpp/common/src/Transaction.cpp:73-76 | the type byte and the list of nine fields |
| `Transactions.EncodeSigned` | cpp/common/src/Transaction.cpp:83-93 | the type byte and the list of twelve fields |
| `Transactions.PayloadFields` | cpp/common/src/Transaction.cpp:56-62 | decoding a payload gives back exactly its fields |
| `Transactions.SigningFieldOrder` | cpp/common/src/Transaction.cpp:41-76 | a signing payload reads back as chain id, nonce, priority fee, fee, gas limit, destination, value, data and an empty access list, in the order of EIP-1559 |
| `Transactions.SignedFieldOrder` | cpp/common/src/Transaction.cpp:83-93 | a signed payload reads back as those nine fields, then parity, r and s |
| `Transactions.SigningPayloadInjective` | cpp/common/src/Transaction.cpp:73-76 | different transactions have different signing payloads |
| `Transactions.SignedPayloadInjective` | cpp/common/src/Transaction.cpp:83-93 | different transactions or signatures have different signed payloads |
| `Transactions.PayloadsDisjoint` | cpp/common/src/Transaction.cpp:73-93 | no signing payload is a signed one |
| `TxSafety.ProcessIsLegal` | cpp/tx-manager/src/TxManager.cpp:119-291 | whatever the node answers, every row update and broadcast for a job keeps its nonce, follows the status order and broadcasts only what is on record |
| `TxSafety.LegalChainKeepsNonces` | cpp/tx-manager/src/TxManager.cpp:119-291 | such effects, cut anywhere by a crash, keep nonces distinct and broadcasts on record |
| `TxSafety.NonceSafety` | cpp/tx-manager/src/TxManager.cpp:89-99 | in every run, crashing anywhere: jobs of a wallet not failed or reorganised hold distinct nonces, the database's nonce index never rejects a write, every broadcast was already persisted as submitted with its nonce, and no absent field is read |
| `TxSafety.NoncesPersist` | cpp/tx-manager/src/TxManager.cpp:119-340 | between any moment of a run and any later one a persisted nonce stays, failed, reorganised and finalized jobs stay exactly as they are, and broadcasts are only added |
| `TxSafety.OnlyApprovedCallsAreBroadcast` | cpp/tx-manager/src/TxManager.cpp:101-128 | in every run each broadcast makes exactly its job's call on its job's chain, moves no ether, and has the destination, data size and selector of one of the configured calls |
| `TxSafety.FinalityNeedsDepth` | cpp/tx-manager/src/TxManager.cpp:261-291 | a job is finalized if and only if its block is still canonical and deep enough, up to the one 64-bit count that wraps, and reorganised if and only if the block is gone |
| `TxOutcomes.NonceIsLeast` | cpp/tx-manager/src/TxManager.cpp:89-99 | the allocated nonce is the least that is at least the node's and beyond every stored one; there is none only when the stored ones reach the last word |
| `TxOutcomes.AttemptSends` | cpp/tx-manager/src/TxManager.cpp:119-223 | an attempt that is approved, within its retries and has all answers hands exactly one transaction to the node, with the least nonce, the estimated gas, the quoted or nine-eighths fees and the job's call; any other hands over none |
| `TxOutcomes.AttemptOutcome` | cpp/tx-manager/src/TxManager.cpp:190-223 | a broadcast job is submitted under the node's hash, stays submitted under its own after a transport or HTTP error, and after a refusal is queued again or fails after the last retry |
| `TxOutcomes.UnreadyOutcome` | cpp/tx-manager/src/TxManager.cpp:119-223 | an attempt that cannot be made ready counts as a try, and the job is queued again or fails after the last retry |
| `TxOutcomes.RefusedOutcome` | cpp/tx-manager/src/TxManager.cpp:119-144 | a job that is not approved, or out of retries, fails at once with the reason |
| `TxOutcomes.SubmittedOutcome` | cpp/tx-manager/src/TxManager.cpp:225-259 | a submitted job is included by a successful receipt and fails by a reverted one, both with the receipt's block; without a receipt it waits for the configured blocks and is then replaced or given up; a failed read changes nothing |
| `TxOutcomes.IncludedOutcome` | cpp/tx-manager/src/TxManager.cpp:261-291 | an included job is reorganised when its block is gone, and otherwise records the blocks from its own to the head, in 64-bit arithmetic, and is final at the configured depth; a failed read changes nothing |
| `TxReplacement.BumpIsNineEighths` | cpp/tx-manager/src/TxManager.cpp:19-26 | a bump is exactly nine eighths rounded up |
| `TxReplacement.BumpKeepsOrder` | cpp/tx-manager/src/TxManager.cpp:170-171 | bumping keeps the priority fee at most the fee |
| `TxReplacement.ProcessInLine` | cpp/tx-manager/src/TxManager.cpp:119-291 | after every effect the row's retry count and fees account for all broadcasts so far |
| `TxReplacement.BoundedReplacement` | cpp/tx-manager/src/TxManager.cpp:119-259 | in every run whose error texts are not empty, or without retries, a job is broadcast at most maximumRetries + 1 times, always with the same nonce, each time at nine eighths or more of every earlier broadcast on both fees, and within the EIP-1559 fee rule if the quotes are |
| `TxReplacement.EmptyTextHidesAttempt` | cpp/tx-manager/src/TxManager.cpp:293-305 | a broadcast rejected with an empty text leaves the job pending and uncounted, its nonce kept |
| `TxReplacement.EmptyTextsAreUnbounded` | cpp/tx-manager/src/TxManager.cpp:293-305 | with retries configured and empty texts, for every n there is a run of the protocol that broadcasts one job n times |
| `TxReplacement.BoundHoldsIff` | cpp/tx-manager/src/TxManager.cpp:119-305 | all runs whose exceptions have a given text stay within the bound if and only if the text is not empty or no retries are configured |
| `TxInterleaving.InterleavedNonceSafety` | cpp/tx-manager/src/TxManager.cpp:89-340 | nonce safety, with the nonce index, in every state of every run in which managers of several wallets, each working on the rows it loaded, and queueing services interleave between any two effects and may die anywhere; what a manager loaded and has not come to is still in the table |
| `TxInterleaving.InterleavedNoncesPersist` | cpp/tx-manager/src/TxManager.cpp:119-340 | in such a run persisted nonces and final jobs stay as they are between any moment and any later one |
| `TxInterleaving.InterleavedReplacement` | cpp/tx-manager/src/TxManager.cpp:119-259 | in such a run, under the same condition on texts, the bound, the single nonce, the escalation and the fee rule of a job's broadcasts |
| `TxManager.TransactionStore.Insert` | cpp/tx-manager/src/PostgresTransactionStore.cpp:137-160 | inserts a pending job, or does nothing for a known id |
| `TxManager.TransactionStore.LoadActive` | cpp/tx-manager/src/PostgresTransactionStore.cpp:162-182 | exactly the account's pending, submitted and included jobs, each once, in creation order |
| `TxManager.TransactionStore.LoadHighestNonce` | cpp/tx-manager/src/PostgresTransactionStore.cpp:184-207 | the greatest nonce held by a job neither failed nor reorganised |
| `TxManager.TransactionStore.Save` | cpp/tx-manager/src/PostgresTransactionStore.cpp:209-260 | updates one row's mutable columns |
| `TxManager.TxManager.AllocateNonce` | cpp/tx-manager/src/TxManager.cpp:89-99 | the greater of the node's nonce and one past the stored ones |
| `TxManager.TxManager.Submit` | cpp/tx-manager/src/TxManager.cpp:119-223 | performs the specified writes and broadcast in order, up to the death of the process |
| `TxManager.TxManager.Poll` | cpp/tx-manager/src/TxManager.cpp:225-291 | performs the specified writes in order, up to the death of the process |
| `TxManager.TxManager.RunOnce` | cpp/tx-manager/src/TxManager.cpp:293-340 | is a run of the protocol with one action per active job in creation order, each on the row as loaded; keeps nonce safety; reports the tally of what processing each job gives, or nothing exactly when the last job it touched died |
| `LiquidationJobs.NextJob` | cpp/liquidator/src/LiquidationJobs.cpp:186-194 | the pick is the first in creation order that is claimable and unlocked, and there is none only if no job is |
| `LeaseSafety.LeaseMoves` | cpp/liquidator/src/LiquidationJobs.cpp:169-342 | any step grants a job's lease anew with the next token, or can only take it away |
| `LeaseSafety.EnqueueDecided` | cpp/liquidator/src/LiquidationJobs.cpp:102-167 | after any run a new event with a version adds one available job at the end of the order, and any other changes nothing |
| `LeaseSafety.ClaimDecided` | cpp/liquidator/src/LiquidationJobs.cpp:169-233 | a claim gets the oldest job of its chain that is unlocked and available, expired or beyond its lease, unless the token is used up |
| `LeaseSafety.GrantedIsOldest` | cpp/liquidator/src/LiquidationJobs.cpp:169-233 | what a claim gets is the oldest such job |
| `LeaseSafety.SubmitDecided` | cpp/liquidator/src/LiquidationJobs.cpp:235-289 | after any run a submission creates the job's transaction, exactly as asked for, if and only if the lease is the handle's and the source block is canonical |
| `LeaseSafety.InvalidateDecided` | cpp/liquidator/src/LiquidationJobs.cpp:291-312 | a job is invalidated with its reason if and only if the lease is the handle's |
| `LeaseSafety.SweepDecided` | cpp/liquidator/src/LiquidationJobs.cpp:314-342 | a sweep invalidates exactly the chain's available, claimed and expired jobs whose block is not canonical |
| `LeaseSafety.ReconcileDecided` | cpp/liquidator/src/LiquidationJobs.cpp:350-371 | after any run a reconciliation ends exactly the submitted jobs whose transaction is settled: finalized completes, failed fails, reorganised invalidates, each with the transaction's error text |
| `LeaseSafety.TokensIncrease` | cpp/liquidator/src/LiquidationJobs.cpp:169-233 | in every run each claim of a job gets a strictly greater token than all before |
| `LeaseSafety.OnlyLatestClaimActs` | cpp/liquidator/src/LiquidationJobs.cpp:235-312 | whoever submits or invalidates holds the job's latest claim, by worker and token, before its lease runs out |
| `LeaseSafety.SubmittedAtMostOnce` | cpp/liquidator/src/LiquidationJobs.cpp:235-289 | at most one submission of a job ever succeeds; its transaction row exists if and only if one did, and carries that submission, made while the source block was canonical |
| `LeaseSafety.EndedBy` | cpp/liquidator/src/LiquidationJobs.cpp:350-381 | in every run a job is completed if and only if it was reconciled with its finalized transaction, failed if and only if with a failed one, and invalidated after submission if and only if with a reorganised one |
| `LiquidationJobStore.PostgresLiquidationJobStore.Enqueue` | cpp/liquidator/src/LiquidationJobs.cpp:102-167 | a new event adds one available job, a redelivered one nothing |
| `LiquidationJobStore.PostgresLiquidationJobStore.Claim` | cpp/liquidator/src/LiquidationJobs.cpp:169-233 | expires lapsed leases, then leases the oldest free job under the next token |
| `LiquidationJobStore.PostgresLiquidationJobStore.Submit` | cpp/liquidator/src/LiquidationJobs.cpp:235-289 | moves job and transaction together, or neither |
| `LiquidationJobStore.PostgresLiquidationJobStore.Invalidate` | cpp/liquidator/src/LiquidationJobs.cpp:291-312 | invalidates if and only if the lease is held |
| `LiquidationJobStore.PostgresLiquidationJobStore.InvalidateNonCanonical` | cpp/liquidator/src/LiquidationJobs.cpp:314-342 | invalidates exactly the open jobs whose block is gone, and counts them |
| `LiquidationJobStore.PostgresLiquidationJobStore.ReconcileSubmitted` | cpp/liquidator/src/LiquidationJobs.cpp:350-381 | moves each settled job on and counts the outcomes |
| `LiquidationJobStore.CountReturned` | cpp/liquidator/src/LiquidationJobs.cpp:372-380 | the three counters are the multiplicities of the returned statuses |
| `OracleLedger.Store.Acquire` | go/oracle-coordinator/internal/oracle/store.go:57-90 | inserts the lease, or takes a lapsed or own one with the next token |
| `OracleLedger.Store.Publish` | go/oracle-coordinator/internal/oracle/store.go:92-237 | creates the next round with a transaction that publishes exactly that round's asset, price, report time and number, or changes nothing |
| `OracleSafety.TokensIncrease` | go/oracle-coordinator/internal/oracle/store.go:57-90 | in every run each acquisition gets a strictly greater token |
| `OracleSafety.AcquireDecided` | go/oracle-coordinator/internal/oracle/store.go:57-90 | a lease is granted, for the time asked for and under the next token, if and only if there is none, it has run out, or it is the holder's own |
| `OracleSafety.OwnershipPassesAfterExpiry` | go/oracle-coordinator/internal/oracle/store.go:75-76 | the lease passes to a different holder only once it has run out |
| `OracleSafety.PublicationsInOrder` | go/oracle-coordinator/internal/oracle/store.go:92-237 | in every run each feed's rounds are 1, 2, 3, … without gaps, each with the transaction that publishes it, and the tokens used for an oracle never go down in creation order |
| `OracleSafety.PublishDecided` | go/oracle-coordinator/internal/oracle/store.go:92-237 | after any run a request creates the feed's next round, with exactly its price, time and call, if and only if its lease holds, no earlier publication is on its way and the row can be encoded and stored; otherwise nothing changes, for the reason given |
| `OracleSafety.NoRoundIsTaken` | go/oracle-coordinator/internal/oracle/store.go:190-230 | the unique keys of rounds, transactions and publications never object |
| `OracleSafety.OnlyLatestTokenPublishes` | go/oracle-coordinator/internal/oracle/store.go:103-124 | a publication is made under the latest token issued, by its holder, before the lease runs out |

## Left out

* HTTP, JSON-RPC, NATS, metrics, process mains, deployment: input and output only; the node's answers are parameters.
* The frontend, the API server and the option pricer: display, routing and unrelated arithmetic.
* SQL text, connections, row parsing and number formatting: each transaction is one step on abstract tables. The
  round trip of the derived tables, the canonical version counter and the outbox events are not modelled.
* Keccak and secp256k1: a signed transaction is modelled by the transaction inside it, and its hash is a parameter.
  Where a whole sync ends up is stated for a chain on which block hashes determine headers and logs.
* ERC-20 transfers, access control, reentrancy guards and the read-only rate views: transfers are exact, a sender holds
  and approves what a call takes, roles are fixed.
* The liquidator's second look at a position, on data read from the chain, and its gas and profit test.
* Event decoding, ABI words, hexadecimal and decimal parsing: events and candidates are decoded values.
* Within a block the log index is assumed unique and increasing with the transaction index; the indexer sorts by log
  index alone.
* Liveness: the chain head advancing, workers making progress, and a job left `Replaced` by a crash, which the
  manager never loads again.
- Indexer.Indexer.SyncToHead: the loop as a whole is modelled for a chain that stands still during the call; under
  arbitrary answers it need not terminate, and `Indexer.Indexer.SyncIteration` states what every single pass keeps.
- Indexer.PostgresStore.CommitBlock: the canonical version counter and the outbox rows of the transaction are not part
  of the tables.
- Indexer.PostgresStore.RewindTo: the canonical version counter and the outbox rows of the transaction are not part of
  the tables.
- TxManager.TxManager.RunOnce: other wallets and queueing services do not act inside the method;
  `TxInterleaving.InterleavedNonceSafety` and its companions state what holds when they do.
- TxReplacement.BoundedReplacement: a broadcast is counted when it is handed to the node, whether or not the node
  received it.
