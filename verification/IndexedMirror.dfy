/** End to end: an indexer that has synced to the head of a chain holds a mirror of the contracts on it. */
module IndexedMirror {
  import opened Results
  import opened PoolEffects
  import opened Protocol
  import opened StateProjector
  import opened ProjectorRefinement
  import opened IndexerStore
  import opened Indexer

  /** If the logs of the node's blocks carry the events of a run of the contracts, syncing succeeds, whatever chain
      the store held before, and leaves the state that the run left in the pool and the oracle, with the time of the
      last accrual, or zero before the first, and one row for each liquidation of the run, in order. */
  method SyncMirrorsPool(indexer: Indexer, view: ChainView, ghost logsOf: Hash -> seq<RawLog>, ghost deployedAt: nat,
                         ghost txs: seq<Tx>)
    returns (r: Result<nat>)
    requires indexer.Valid() && indexer.Honest() && ValidView(view, indexer.headerOf, logsOf)
    requires indexer.replay == LogsOfChain(logsOf, indexer.chain) && indexer.market.weth != indexer.market.usdc
    requires Carries(LogsOfChain(logsOf, BlocksOf(view, indexer.startBlock)),
                     Run(indexer.market, Genesis(deployedAt), txs).events)
    modifies indexer, indexer.store
    ensures r.Success? && indexer.Valid() && indexer.reorgs <= old(indexer.reorgs) + 1
    ensures var run := Run(indexer.market, Genesis(deployedAt), txs);
            && Mirrors(indexer.market, run.after, indexer.store.derived)
            && indexer.store.derived.market.lastInterestTimestamp ==
               (if Accrues(run.events) then run.after.pool.lastUpdate else 0)
            && indexer.store.derived.liquidations
               == HistoryOf(LogsOfChain(logsOf, BlocksOf(view, indexer.startBlock)))
            && Tells(indexer.store.derived.liquidations, run.events)
  {
    hide ApplyAll, Run, Carries, Mirrors, LogsOfChain, BlocksOf, ValidView, IsCanonicalChain, IsReplay, Sound, Accrues;
    ProjectorRefinesPool(indexer.market, deployedAt, txs, LogsOfChain(logsOf, BlocksOf(view, indexer.startBlock)));
    r := indexer.SyncToHead(view, logsOf);
  }
}
