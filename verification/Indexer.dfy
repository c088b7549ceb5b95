/** The reorg-aware indexer (Indexer.cpp) over its store (PostgresStore.cpp): what it keeps under any RPC
    answers, and where one call ends when the chain stands still. */
module Indexer {
  import opened Results
  import opened FixedPoint
  import opened RiskManager
  import opened StateProjector
  import opened ReplayOrder
  import opened Sorting
  import opened Projection
  import opened IndexerStore

  datatype Header = Header(number: nat, hash: Hash, parentHash: Hash)

  datatype RpcLog = RpcLog(log: RawLog, removed: bool)

  /** Everything the node may answer during one pass of the sync loop: each call site asks for a block at
      most once, so answers may differ between sites, and any answer may be an exception. */
  datatype Rpc = Rpc(
    head: Result<nat>,
    block: (CallSite, nat) -> Result<Option<Header>>,
    logs: nat -> Result<seq<RpcLog>>)

  datatype CallSite = CursorCheck | ReconcileSearch | NextHeader | MismatchSearch

  /** Log indices are unique in the answer and do not decrease with the transaction index. */
  ghost predicate TransactionOrdered(logs: seq<RpcLog>) {
    && (forall x :: multiset(logs)[x] <= 1)
    && (forall x, y :: x in logs && y in logs && x.log.logIndex == y.log.logIndex ==> x == y)
    && (forall x, y :: x in logs && y in logs && x.log.logIndex < y.log.logIndex ==>
                         x.log.transactionIndex <= y.log.transactionIndex)
  }

  /** The rows kept from an answer for `header`: those not removed, in replay order. */
  ghost predicate Fetched(answer: seq<RpcLog>, header: Header, logs: seq<RawLog>) {
    && StrictlyOrdered(logs)
    && (forall i, j :: 0 <= i < j < |logs| ==> KeyOf(logs[i]) != KeyOf(logs[j]))
    && (forall l :: l in logs ==> l.canonical && l.blockNumber == header.number && l.blockHash == header.hash)
    && (forall l :: l in logs <==> exists x :: x in answer && !x.removed && l == x.log.(canonical := true))
  }

  /** A log that was not removed, yet belongs to another block. */
  predicate Foreign(x: RpcLog, header: Header) {
    !x.removed && (x.log.blockNumber != header.number || x.log.blockHash != header.hash)
  }

  /** An answer determines the rows. */
  lemma FetchedOnce(answer: seq<RpcLog>, header: Header, logs: seq<RawLog>, logs': seq<RawLog>)
    requires Fetched(answer, header, logs) && Fetched(answer, header, logs')
    ensures logs == logs'
  {
    hide StrictlyOrdered;
    SameElementsSameOrder(logs, logs');
  }

  class PostgresStore {
    var blocks: map<Hash, Block>
    var logs: map<LogKey, RawLog>
    var derived: DerivedState
    var cursor: Option<Cursor>

    constructor ()
      ensures Db() == EmptyDatabase()
    {
      blocks, logs, derived, cursor := map[], map[], CreateInitialState(), None;
    }

    function Db(): Database
      reads this
    {
      Database(blocks, logs, derived, cursor)
    }

    /** One transaction: the block, its logs, the derived tables and the cursor, or nothing. */
    method CommitBlock(block: Block, newLogs: seq<RawLog>, state: DerivedState) returns (r: Result<()>)
      modifies this
      ensures match IndexerStore.CommitBlock(old(Db()), block, newLogs, state)
              case Success(db) => r.Success? && Db() == db
              case Failure(e) => r == Failure(e) && Db() == old(Db())
    {
      if HeightTaken(blocks, block) {
        return Failure(UniqueViolation);
      }
      blocks := blocks[block.hash := block];
      for i := 0 to |newLogs|
        invariant logs == UpsertLogs(old(logs), newLogs[..i])
        invariant blocks == old(blocks)[block.hash := block]
      {
        assert newLogs[..i + 1][..i] == newLogs[..i] && newLogs[..i + 1][i] == newLogs[i];
        logs := logs[KeyOf(newLogs[i]) := newLogs[i]];
      }
      assert newLogs[..|newLogs|] == newLogs;
      derived := state;
      cursor := Some(Cursor(block.number, block.hash));
      return Success(());
    }

    /** One transaction: orphan everything above the ancestor and move the cursor back. */
    method RewindTo(ancestor: Option<Block>, state: DerivedState)
      modifies this
      ensures Db() == IndexerStore.RewindTo(old(Db()), ancestor, state)
    {
      blocks := map h | h in blocks ::
        if Kept(ancestor, blocks[h].number) then blocks[h] else blocks[h].(canonical := false);
      logs := map k | k in logs ::
        if Kept(ancestor, logs[k].blockNumber) then logs[k] else logs[k].(canonical := false);
      derived := state;
      cursor := if ancestor.Some? then Some(Cursor(ancestor.value.number, ancestor.value.hash)) else None;
    }

    method LoadCanonicalBlock(number: nat, ghost start: nat, ghost chain: seq<Block>) returns (r: Option<Block>)
      requires IsCanonicalChain(start, Db(), chain)
      ensures r == if start <= number < start + |chain| then Some(chain[number - start]) else None
    {
      var found := set h | h in blocks && blocks[h].number == number && blocks[h].canonical;
      if start <= number < start + |chain| {
        assert InPlace(start, Db(), chain, number - start);
        assert chain[number - start].hash in found;
      }
      if found == {} {
        r := None;
      } else {
        var h :| h in found;
        assert Filed(start, Db(), chain, h);
        r := Some(blocks[h]);
      }
    }

    /** The canonical logs up to a block, in replay order. */
    method LoadCanonicalLogsThrough(number: nat, ghost start: nat, ghost chain: seq<Block>, ghost replay: seq<RawLog>)
      returns (rows: seq<RawLog>)
      requires IsReplay(start, Db(), chain, replay)
      ensures rows == Through(replay, number)
    {
      hide StrictlyOrdered, Through;
      rows := [];
      var todo := logs.Keys;
      while todo != {}
        invariant todo <= logs.Keys
        invariant forall l :: l in rows <==> Selected(l, number) && KeyOf(l) !in todo
        invariant forall l :: multiset(rows)[l] <= 1
        decreases |todo|
      {
        var k :| k in todo;
        var row := logs[k];
        assert KeyOf(row) == k;
        if row.canonical && row.blockNumber <= number {
          assert row !in rows;
          assert multiset(rows + [row]) == multiset(rows) + multiset{row};
          rows := rows + [row];
        }
        todo := todo - {k};
      }
      ghost var wanted := Through(replay, number);
      SelectedIsThrough(number, start, chain, replay);
      StrictHasNoDuplicates(wanted) by { ThroughStrict(replay, number); }
      DistinctSameElements(rows, wanted);
      ReplayOrderIsStrictWeak();
      rows := Sort(rows, Before);
      assert Ordered(rows);
      ThroughStrict(replay, number);
      SortedUniquely(rows, wanted);
    }

    /** A stored canonical row up to a block. */
    ghost predicate Selected(l: RawLog, number: nat)
      reads this
    {
      KeyOf(l) in logs && logs[KeyOf(l)] == l && l.canonical && l.blockNumber <= number
    }

    lemma SelectedIsThrough(number: nat, start: nat, chain: seq<Block>, replay: seq<RawLog>)
      requires IsReplay(start, Db(), chain, replay)
      ensures forall l :: l in Through(replay, number) <==> Selected(l, number)
    {
      hide StrictlyOrdered, Through;
      forall l
        ensures l in Through(replay, number) <==> Selected(l, number)
      {
        ThroughMembers(replay, number, l);
        if l in replay {
          assert Replayed(start, Db(), chain, l);
        }
      }
    }
  }

  lemma ThroughStrict(s: seq<RawLog>, n: nat)
    requires StrictlyOrdered(s)
    ensures StrictlyOrdered(Through(s, n))
  {
    ThroughIsPrefix(s, n);
  }

  lemma {:induction false} StrictHasNoDuplicates(s: seq<RawLog>)
    requires StrictlyOrdered(s)
    ensures forall l :: multiset(s)[l] <= 1
  {
    if s != [] {
      DropLast(s);
      LastIsNotEarlier(s);
      StrictHasNoDuplicates(s[..|s| - 1]);
      assert s == s[..|s| - 1] + [s[|s| - 1]];
    }
  }

  /** What one pass of the sync loop did. */
  datatype Progress = Done | Indexed | Rewound

  /** A chain that does not change during a call: headers from the genesis block to the head, and their logs. */
  datatype ChainView = ChainView(headers: seq<Header>, logs: seq<seq<RpcLog>>)

  function RpcOf(view: ChainView): Rpc
    requires |view.headers| > 0
  {
    Rpc(Success(|view.headers| - 1),
        (site: CallSite, n: nat) => Success(if n < |view.headers| then Some(view.headers[n]) else None),
        (n: nat) => Success(if n < |view.logs| then view.logs[n] else []))
  }

  /** A linked chain of headers, whose logs are those their block hashes stand for. */
  ghost predicate ValidView(view: ChainView, headerOf: Hash -> Header, logsOf: Hash -> seq<RawLog>) {
    && 0 < |view.headers| == |view.logs| <= MAX_UINT64 + 1
    && (forall i :: 0 <= i < |view.headers| ==>
                      && view.headers[i].number == i
                      && headerOf(view.headers[i].hash) == view.headers[i]
                      && (i > 0 ==> view.headers[i].parentHash == view.headers[i - 1].hash)
                      && TransactionOrdered(view.logs[i])
                      && Fetched(view.logs[i], view.headers[i], logsOf(view.headers[i].hash)))
    && (forall h, l :: l in logsOf(h) ==> l.blockNumber == headerOf(h).number)
  }

  /** The logs of a chain's blocks, in order. */
  ghost function LogsOfChain(logsOf: Hash -> seq<RawLog>, chain: seq<Block>): seq<RawLog> {
    if chain == [] then [] else
    LogsOfChain(logsOf, chain[..|chain| - 1]) + logsOf(chain[|chain| - 1].hash)
  }

  /** The stored chain is part of the node's. */
  ghost predicate Agrees(view: ChainView, start: nat, chain: seq<Block>) {
    forall i :: 0 <= i < |chain| ==> start + i < |view.headers| && chain[i].hash == view.headers[start + i].hash
  }

  function BlockOf(header: Header): Block {
    Block(header.number, header.hash, header.parentHash, true)
  }

  /** There is a block above the chain, and applying its logs fails. */
  ghost predicate NextBlockDoesNotApply(m: Market, start: nat, chain: seq<Block>, view: ChainView,
                                        logsOf: Hash -> seq<RawLog>)
  {
    && start + |chain| < |view.headers|
    && ApplyAll(m, CreateInitialState(),
                LogsOfChain(logsOf, chain) + logsOf(view.headers[start + |chain|].hash)).Failure?
  }

  /** The node's blocks from `start` to its head. */
  function BlocksOf(view: ChainView, start: nat): seq<Block> {
    if start < |view.headers| then
      seq(|view.headers| - start, i requires 0 <= i < |view.headers| - start => BlockOf(view.headers[start + i]))
    else []
  }

  lemma BlockAt(view: ChainView, start: nat, i: nat)
    requires start + i < |view.headers|
    ensures |BlocksOf(view, start)| == |view.headers| - start
    ensures BlocksOf(view, start)[i] == BlockOf(view.headers[start + i])
  {
  }

  lemma AgreesWithinView(view: ChainView, start: nat, chain: seq<Block>)
    ensures Agrees(view, start, chain) && chain != [] ==> start + |chain| <= |view.headers|
  {
    if Agrees(view, start, chain) && chain != [] {
      var tip := chain[|chain| - 1];
      assert start + (|chain| - 1) < |view.headers| && tip.hash == view.headers[start + (|chain| - 1)].hash;
    }
  }

  lemma EmptyAnswerIsOrdered()
    ensures TransactionOrdered([])
  {
  }

  class Indexer {
    const market: Market
    const startBlock: nat
    const store: PostgresStore
    var chainHead: nat
    var indexedBlock: nat
    var reorgs: nat

    /** The header a block hash stands for; only needed to say where a sync ends. */
    ghost const headerOf: Hash -> Header
    /** The canonical blocks and logs the store holds, in order. */
    ghost var chain: seq<Block>
    ghost var replay: seq<RawLog>

    constructor (market: Market, startBlock: nat, store: PostgresStore, ghost headerOf: Hash -> Header)
      requires store.Db() == EmptyDatabase()
      ensures Valid() && this.store == store && this.startBlock == startBlock && this.market == market
      ensures this.headerOf == headerOf && chain == [] && replay == [] && reorgs == 0
    {
      this.market, this.startBlock, this.store := market, startBlock, store;
      this.headerOf := headerOf;
      chainHead, indexedBlock, reorgs := 0, 0, 0;
      chain, replay := [], [];
      new;
      EmptyIsConsistent(market, startBlock);
    }

    /** The store's canonical blocks form one chain, and its derived state is the replay of their logs. */
    ghost predicate Valid()
      reads this, store
    {
      Consistent(market, startBlock, store.Db(), chain, replay)
    }

    /** The stored headers are those their hashes stand for. */
    ghost predicate Honest()
      reads store
    {
      forall h :: h in store.blocks ==>
                    headerOf(h) == Header(store.blocks[h].number, h, store.blocks[h].parentHash)
    }

    /** The header answered for the block after these does not have the hash of one of them. */
    static ghost predicate NextIsNew(rpc: Rpc, start: nat, blocks: seq<Block>) {
      var n := start + |blocks|;
      Answers(rpc, NextHeader, n) ==>
        forall i :: 0 <= i < |blocks| ==> rpc.block(NextHeader, n).value.value.hash != blocks[i].hash
    }

    /** The one header that the pass reads as the next block's does not have the hash of a canonical block below. */
    ghost predicate FreshHash(rpc: Rpc)
      reads this`chain
    {
      rpc.head.Success? ==>
        forall n: nat :: Resumes(rpc, rpc.head.value, startBlock, chain, n) ==> NextIsNew(rpc, startBlock, chain[..n])
    }

    /** There is no cursor, or the node still has its block. */
    static ghost predicate Stands(rpc: Rpc, head: nat, start: nat, blocks: seq<Block>) {
      var tip := start + |blocks| - 1;
      blocks == [] || (tip <= head && Has(rpc, CursorCheck, start, blocks, tip))
    }

    /** The first `n` blocks are those up to the highest one, at or below the head, that the node still has. */
    static ghost predicate EndsAtHighest(rpc: Rpc, site: CallSite, head: nat, start: nat, blocks: seq<Block>, n: nat) {
      && n <= |blocks|
      && (n > 0 ==> start + n - 1 <= head && Has(rpc, site, start, blocks, start + n - 1))
      && forall k :: start + n <= k <= head ==> !Has(rpc, site, start, blocks, k)
    }

    /** Reconciling leaves the first `n` blocks: all of them if the cursor stands, or else those up to the highest one
        that the node still has. */
    static ghost predicate Resumes(rpc: Rpc, head: nat, start: nat, blocks: seq<Block>, n: nat) {
      if Stands(rpc, head, start, blocks) then n == |blocks|
      else EndsAtHighest(rpc, ReconcileSearch, head, start, blocks, n)
    }

    /** The logs of the first `n` blocks. */
    static ghost function LogsOfFirst(start: nat, rows: seq<RawLog>, n: nat): seq<RawLog> {
      if n == 0 then [] else Through(rows, start + n - 1)
    }

    /** What a pass makes of the reconciled chain and its logs: nothing if there is no next block or it fails, one more
        block if the next block links to the last, and if it does not, only the blocks up to the highest one that the
        node still has. */
    static ghost predicate Leaves(rpc: Rpc, head: nat, start: nat, blocks: seq<Block>, rows: seq<RawLog>,
                                  r: Result<Progress>, after: seq<Block>, afterRows: seq<RawLog>)
    {
      var next := start + |blocks|;
      match r
      case Success(Done) => after == blocks && afterRows == rows && (next > head || next > MAX_UINT64)
      case Success(Indexed) =>
        && next <= head && Answers(rpc, NextHeader, next) && Links(rpc, start, blocks)
        && after == blocks + [BlockOf(rpc.block(NextHeader, next).value.value)]
        && rpc.logs(next).Success?
        && exists more :: Fetched(rpc.logs(next).value, rpc.block(NextHeader, next).value.value, more)
                          && afterRows == rows + more
      case Success(Rewound) =>
        && next <= head && Answers(rpc, NextHeader, next) && !Links(rpc, start, blocks)
        && EndsAtHighest(rpc, MismatchSearch, head, start, blocks, |after|)
        && after == blocks[..|after|] && afterRows == LogsOfFirst(start, rows, |after|)
      case Failure(_) => after == blocks && afterRows == rows
    }

    /** The next header names the last block as its parent. */
    static ghost predicate Links(rpc: Rpc, start: nat, blocks: seq<Block>)
      requires Answers(rpc, NextHeader, start + |blocks|)
    {
      blocks != [] ==>
        rpc.block(NextHeader, start + |blocks|).value.value.parentHash == blocks[|blocks| - 1].hash
    }

    /** The node answers with a header of the height asked for. */
    static ghost predicate Answers(rpc: Rpc, site: CallSite, n: nat) {
      && rpc.block(site, n).Success? && rpc.block(site, n).value.Some?
      && rpc.block(site, n).value.value.number == n
    }

    /** Why the logs of a block cannot be indexed: they cannot be read, one belongs to another block, or applying
        them fails. */
    ghost predicate CannotIndex(rpc: Rpc, header: Header, state: DerivedState) {
      || rpc.logs(header.number).Failure?
      || (exists x :: x in rpc.logs(header.number).value && Foreign(x, header))
      || (exists rows :: Fetched(rpc.logs(header.number).value, header, rows) && ApplyAll(market, state, rows).Failure?)
    }

    /** The head cannot be read, or a block up to it; or the next block is missing or misnumbered. */
    static ghost predicate ReadFails(rpc: Rpc) {
      || rpc.head.Failure?
      || (exists site: CallSite, n: nat :: n <= rpc.head.value && rpc.block(site, n).Failure?)
      || (exists n: nat :: n <= rpc.head.value && !Answers(rpc, NextHeader, n))
    }

    /** The next block was read, and its logs cannot be indexed. */
    ghost predicate NextCannotBeIndexed(rpc: Rpc, state: DerivedState) {
      exists n :: Answers(rpc, NextHeader, n) && CannotIndex(rpc, rpc.block(NextHeader, n).value.value, state)
    }

    ghost predicate OrderedLogs(rpc: Rpc) {
      forall n :: rpc.logs(n).Success? ==> TransactionOrdered(rpc.logs(n).value)
    }

    /** The node's answer at this height is the block of these with the height. */
    static ghost predicate Has(rpc: Rpc, site: CallSite, start: nat, blocks: seq<Block>, number: nat) {
      && start <= number < start + |blocks|
      && rpc.block(site, number).Success? && rpc.block(site, number).value.Some?
      && rpc.block(site, number).value.value.hash == blocks[number - start].hash
    }

    /** The node's answer at this height is the stored block. */
    ghost predicate Matches(rpc: Rpc, site: CallSite, number: nat)
      reads this`chain
    {
      Has(rpc, site, startBlock, chain, number)
    }

    /** The highest stored block the node still has, searching down from `upperBound`. */
    method FindCommonAncestor(rpc: Rpc, site: CallSite, upperBound: nat) returns (r: Result<Option<Block>>)
      requires Valid()
      ensures r.Success? ==>
                && OnChain(startBlock, chain, r.value)
                && (r.value.Some? ==> r.value.value.number <= upperBound && Matches(rpc, site, r.value.value.number))
                && forall k :: startBlock <= k <= upperBound && (r.value.Some? ==> r.value.value.number < k) ==>
                                 !Matches(rpc, site, k) && rpc.block(site, k).Success?
      ensures r.Failure? ==>
                exists k :: && startBlock <= k <= upperBound && rpc.block(site, k) == Failure(r.error)
                            && forall j :: k < j <= upperBound ==> !Matches(rpc, site, j)
    {
      hide Consistent, IsReplay, StrictlyOrdered;
      assert IsCanonicalChain(startBlock, store.Db(), chain) by {
        ChainOf(market, startBlock, store.Db(), chain, replay);
      }
      var blockNumber := upperBound;
      while blockNumber >= startBlock
        invariant blockNumber <= upperBound
        invariant forall k :: startBlock <= k <= upperBound && blockNumber < k ==>
                                !Matches(rpc, site, k) && rpc.block(site, k).Success?
        decreases blockNumber
      {
        var storedBlock := store.LoadCanonicalBlock(blockNumber, startBlock, chain);
        var chainBlock :- rpc.block(site, blockNumber);
        if storedBlock.Some? && chainBlock.Some? && storedBlock.value.hash == chainBlock.value.hash {
          assert InPlace(startBlock, store.Db(), chain, blockNumber - startBlock);
          return Success(storedBlock);
        }
        if blockNumber == startBlock {
          break;
        }
        blockNumber := blockNumber - 1;
      }
      return Success(None);
    }

    /** Moves the store back to the ancestor; replaying the remaining logs cannot fail. */
    method Rewind(ancestor: Option<Block>)
      requires Valid() && OnChain(startBlock, chain, ancestor)
      modifies this, store
      ensures Valid()
      ensures chain == old(chain)[..KeptBlocks(startBlock, ancestor)]
      ensures replay == KeptLogs(old(replay), ancestor)
      ensures reorgs == old(reorgs) + 1 && chainHead == old(chainHead) && indexedBlock == old(indexedBlock)
      ensures old(Honest()) ==> Honest()
    {
      hide ApplyAll, IsCanonicalChain, StrictlyOrdered, Through;
      reorgs := reorgs + 1;
      RewindKeepsConsistency(market, startBlock, store.Db(), chain, replay, ancestor);
      var state := CreateInitialState();
      if ancestor.Some? {
        var rows := store.LoadCanonicalLogsThrough(ancestor.value.number, startBlock, chain, replay);
        var rebuilt := Rebuild(market, rows);
        AllCanonical(rows) by {
          forall l | l in rows ensures l.canonical {
            ThroughMembers(replay, ancestor.value.number, l);
            assert Replayed(startBlock, store.Db(), chain, l);
          }
        }
        ThroughStrict(replay, ancestor.value.number);
        assert rebuilt == ApplyAll(market, CreateInitialState(), rows);
        state := rebuilt.value;
      } else {
        EmptyReplay(market);
      }
      chain := chain[..KeptBlocks(startBlock, ancestor)];
      replay := KeptLogs(replay, ancestor);
      store.RewindTo(ancestor, state);
    }

    /** Fetches, checks, applies and commits the logs of the next block; fails exactly when that cannot be done. */
    method IndexBlock(rpc: Rpc, header: Header) returns (r: Result<()>, ghost newLogs: seq<RawLog>)
      requires Valid() && OrderedLogs(rpc)
      requires header.number == startBlock + |chain| && forall i :: 0 <= i < |chain| ==> chain[i].hash != header.hash
      requires chain != [] ==> header.parentHash == chain[|chain| - 1].hash
      modifies this, store
      ensures Valid() && reorgs == old(reorgs) && chainHead == old(chainHead)
      ensures old(Honest()) && headerOf(header.hash) == header ==> Honest()
      ensures r.Failure? <==> CannotIndex(rpc, header, old(store.derived))
      ensures r.Failure? ==> chain == old(chain) && replay == old(replay) && store.Db() == old(store.Db())
      ensures r.Success? ==>
                && chain == old(chain) + [Block(header.number, header.hash, header.parentHash, true)]
                && replay == old(replay) + newLogs
                && rpc.logs(header.number).Success? && Fetched(rpc.logs(header.number).value, header, newLogs)
    {
      hide ApplyAll, Apply, IsCanonicalChain, IsReplay, StrictlyOrdered;
      newLogs := [];
      var answer := rpc.logs(header.number);
      if answer.Failure? {
        r := Failure(answer.error);
        return;
      }
      var fetched := FetchLogs(answer.value, header);
      if fetched.Failure? {
        r := Failure(fetched.error);
        return;
      }
      var rows := fetched.value;
      OnlyTheseRows(rpc, header, rows);
      var projection := new Projection(market, store.derived);
      var applied := projection.Replay(rows);
      if applied.Failure? {
        r := Failure(applied.error);
        return;
      }
      var block := Block(header.number, header.hash, header.parentHash, true);
      assert Extends(startBlock, chain, block, rows);
      assert block.hash in store.blocks ==> !store.blocks[block.hash].canonical by {
        HashIsNew(block.hash);
      }
      CommitKeepsConsistency(market, startBlock, store.Db(), chain, replay, block, rows, projection.State());
      r := store.CommitBlock(block, rows, projection.State());
      newLogs := rows;
      chain := chain + [block];
      replay := replay + rows;
    }

    /** When the logs were fetched, only applying them can fail. */
    lemma OnlyTheseRows(rpc: Rpc, header: Header, rows: seq<RawLog>)
      requires rpc.logs(header.number).Success? && Fetched(rpc.logs(header.number).value, header, rows)
      requires !exists x :: x in rpc.logs(header.number).value && Foreign(x, header)
      ensures forall state :: CannotIndex(rpc, header, state) <==> ApplyAll(market, state, rows).Failure?
    {
      hide Fetched, ApplyAll;
      forall other | Fetched(rpc.logs(header.number).value, header, other) ensures other == rows {
        FetchedOnce(rpc.logs(header.number).value, header, rows, other);
      }
    }

    static lemma WholeChainResumes(rpc: Rpc, head: nat, start: nat, blocks: seq<Block>)
      requires Stands(rpc, head, start, blocks)
      ensures Resumes(rpc, head, start, blocks, |blocks|)
    {
    }

    static lemma HasOnlyStored(rpc: Rpc, site: CallSite, start: nat, blocks: seq<Block>, k: nat)
      ensures k >= start + |blocks| ==> !Has(rpc, site, start, blocks, k)
    {
    }

    static lemma AncestorIsHighest(rpc: Rpc, site: CallSite, head: nat, start: nat, blocks: seq<Block>,
                                   ancestor: Option<Block>)
      requires OnChain(start, blocks, ancestor)
      requires ancestor.Some? ==>
                 ancestor.value.number <= head && Has(rpc, site, start, blocks, ancestor.value.number)
      requires forall k :: start <= k <= head && (ancestor.Some? ==> ancestor.value.number < k) ==>
                             !Has(rpc, site, start, blocks, k)
      ensures EndsAtHighest(rpc, site, head, start, blocks, KeptBlocks(start, ancestor))
      ensures ancestor.Some? ==> Has(rpc, site, start, blocks[..KeptBlocks(start, ancestor)], ancestor.value.number)
    {
    }

    /** Whether the node still has the cursor's block. */
    method CursorStands(rpc: Rpc, head: nat, cursor: Cursor) returns (r: Result<bool>)
      requires chain != [] && cursor.blockNumber == startBlock + |chain| - 1
      requires cursor.blockHash == chain[|chain| - 1].hash
      ensures r.Success? ==> r.value == (cursor.blockNumber <= head && Matches(rpc, CursorCheck, cursor.blockNumber))
      ensures r.Failure? ==>
                cursor.blockNumber <= head && rpc.block(CursorCheck, cursor.blockNumber) == Failure(r.error)
    {
      if cursor.blockNumber > head {
        return Success(false);
      }
      var chainBlock :- rpc.block(CursorCheck, cursor.blockNumber);
      return Success(chainBlock.Some? && chainBlock.value.hash == cursor.blockHash);
    }

    /** The stored logs are those of the whole chain. */
    lemma WholeReplay()
      requires Valid()
      ensures LogsOfFirst(startBlock, replay, |chain|) == replay
    {
      hide ApplyAll, IsCanonicalChain, StrictlyOrdered;
      WholeReplayOf(startBlock, store.Db(), chain, replay);
    }

    /** The cursor, after rewinding to the common ancestor if the node no longer has the cursor's block. */
    method ReconcileCursor(rpc: Rpc, head: nat) returns (r: Result<Option<Cursor>>, ghost ancestor: Option<Block>)
      requires Valid()
      modifies this, store
      ensures Valid() && chainHead == old(chainHead)
      ensures r.Failure? ==> chain == old(chain) && replay == old(replay) && reorgs == old(reorgs)
      ensures r.Failure? ==> exists site: CallSite, n: nat :: n <= head && rpc.block(site, n) == Failure(r.error)
      ensures old(Honest()) ==> Honest()
      ensures r.Success? ==> r.value == TipOf(chain)
      ensures r.Success? ==> && |chain| <= |old(chain)| && chain == old(chain)[..|chain|]
                             && Resumes(rpc, head, startBlock, old(chain), |chain|)
                             && replay == LogsOfFirst(startBlock, old(replay), |chain|)
                             && reorgs == old(reorgs) + (if Stands(rpc, head, startBlock, old(chain)) then 0 else 1)
      ensures r.Success? ==>
                if reorgs == old(reorgs) then
                  && chain == old(chain) && replay == old(replay)
                  && (chain != [] ==>
                        chain[|chain| - 1].number <= head && Matches(rpc, CursorCheck, chain[|chain| - 1].number))
                else
                  && reorgs == old(reorgs) + 1 && OnChain(startBlock, old(chain), ancestor)
                  && chain == old(chain)[..KeptBlocks(startBlock, ancestor)]
                  && replay == KeptLogs(old(replay), ancestor)
                  && (chain != [] ==> Matches(rpc, ReconcileSearch, chain[|chain| - 1].number))
                  && old(chain) != []
                  && !(old(chain)[|old(chain)| - 1].number <= head
                       && old(Matches(rpc, CursorCheck, chain[|chain| - 1].number)))
    {
      hide Consistent;
      assert IsCanonicalChain(startBlock, store.Db(), chain) by {
        ChainOf(market, startBlock, store.Db(), chain, replay);
      }
      hide IsCanonicalChain, Through, ApplyAll, EndsAtHighest, Has;
      ancestor := None;
      WholeReplay();
      assert store.cursor == TipOf(chain) by { CursorIsTip(startBlock, store.Db(), chain); }
      var cursor := store.cursor;
      if cursor.None? {
        WholeChainResumes(rpc, head, startBlock, chain);
        r := Success(None);
        return;
      }
      TipNumber(startBlock, store.Db(), chain);
      var stands := CursorStands(rpc, head, cursor.value);
      if stands.Failure? {
        r := Failure(stands.error);
        return;
      }
      if stands.value {
        WholeChainResumes(rpc, head, startBlock, chain);
        r := Success(cursor);
        return;
      }
      r, ancestor := RewindToHighest(rpc, ReconcileSearch, head, cursor.value.blockNumber);
    }

    /** Goes back to the highest block that the node still has. */
    method RewindToHighest(rpc: Rpc, site: CallSite, head: nat, cursorNumber: nat)
      returns (r: Result<Option<Cursor>>, ghost ancestor: Option<Block>)
      requires Valid() && chain != [] && cursorNumber == startBlock + |chain| - 1
      modifies this, store
      ensures Valid() && (old(Honest()) ==> Honest()) && chainHead == old(chainHead)
      ensures r.Failure? ==> chain == old(chain) && replay == old(replay) && reorgs == old(reorgs)
      ensures r.Failure? ==> store.derived == old(store.derived)
      ensures r.Failure? ==> exists n: nat :: n <= head && rpc.block(site, n) == Failure(r.error)
      ensures r.Success? ==>
                && reorgs == old(reorgs) + 1 && OnChain(startBlock, old(chain), ancestor)
                && chain == old(chain)[..KeptBlocks(startBlock, ancestor)]
                && replay == KeptLogs(old(replay), ancestor) == LogsOfFirst(startBlock, old(replay), |chain|)
                && EndsAtHighest(rpc, site, head, startBlock, old(chain), |chain|)
                && (if ancestor.None? then r.value == None else
                    && r.value == Some(Cursor(ancestor.value.number, ancestor.value.hash))
                    && Matches(rpc, site, ancestor.value.number))
    {
      hide Consistent, EndsAtHighest, Has, Through;
      ancestor := None;
      var found := FindCommonAncestor(rpc, site, if cursorNumber < head then cursorNumber else head);
      if found.Failure? {
        r := Failure(found.error);
        return;
      }
      ancestor := found.value;
      forall k | startBlock <= k <= head && (ancestor.Some? ==> ancestor.value.number < k)
        ensures !Has(rpc, site, startBlock, chain, k)
      {
        if k <= cursorNumber {
          assert !Matches(rpc, site, k);
        } else {
          HasOnlyStored(rpc, site, startBlock, chain, k);
        }
      }
      AncestorIsHighest(rpc, site, head, startBlock, chain, ancestor);
      Rewind(found.value);
      r := Success(if found.value.Some? then Some(Cursor(found.value.value.number, found.value.value.hash)) else None);
    }

    /** One pass of the sync loop, under any answers; it fails only if a read fails or the block cannot be indexed.
        With a chain that stands still (`fixed`), the pass either finds nothing left to index, adds one block, or
        fails because the next block's logs do not apply, and it rewinds only if the stored chain had left the
        node's. */
    method SyncIteration(rpc: Rpc, ghost fixed: bool, ghost view: ChainView, ghost logsOf: Hash -> seq<RawLog>)
      returns (r: Result<Progress>, ghost resumed: nat)
      requires Valid() && FreshHash(rpc) && OrderedLogs(rpc)
      requires fixed ==> && Honest() && ValidView(view, headerOf, logsOf) && rpc == RpcOf(view)
                         && replay == LogsOfChain(logsOf, chain)
      modifies this, store
      ensures Valid()
      ensures r.Failure? ==> ReadFails(rpc) || NextCannotBeIndexed(rpc, store.derived)
      ensures rpc.head.Success? ==> chainHead == rpc.head.value
      ensures || (r.Failure? && chain == old(chain) && replay == old(replay) && reorgs == old(reorgs))
              || (&& rpc.head.Success? && Resumes(rpc, rpc.head.value, startBlock, old(chain), resumed)
                  && resumed <= |old(chain)|
                  && Leaves(rpc, rpc.head.value, startBlock, old(chain)[..resumed],
                            LogsOfFirst(startBlock, old(replay), resumed), r, chain, replay)
                  && reorgs == old(reorgs) + (if Stands(rpc, rpc.head.value, startBlock, old(chain)) then 0 else 1)
                               + (if r == Success(Rewound) then 1 else 0))
      ensures r == Success(Done) || r == Success(Indexed) ==> indexedBlock == Height(startBlock, chain)
      ensures fixed ==> Honest() && replay == LogsOfChain(logsOf, chain)
      ensures fixed && old(Agrees(view, startBlock, chain)) ==> reorgs == old(reorgs)
      ensures fixed ==> reorgs <= old(reorgs) + 1
      ensures fixed ==>
                && Agrees(view, startBlock, chain)
                && match r
                   case Success(Done) => startBlock + |chain| >= |view.headers|
                                         && (old(Agrees(view, startBlock, chain)) ==> chain == old(chain))
                   case Success(Indexed) => |chain| > 0 && (old(Agrees(view, startBlock, chain)) ==>
                     |chain| == |old(chain)| + 1)
                   case Success(Rewound) => false
                   case Failure(_) => NextBlockDoesNotApply(market, startBlock, chain, view, logsOf)
    {
      hide Consistent, ApplyAll, ValidView, LogsOfChain, Agrees, Fetched, Honest, CannotIndex, NextBlockDoesNotApply,
           Leaves, Resumes, Stands, LogsOfFirst;
      resumed := 0;
      if rpc.head.Failure? {
        r := Failure(rpc.head.error);
        return;
      }
      var head := rpc.head.value;
      chainHead := head;
      var reconciled := Reconcile(rpc, head, fixed, view, logsOf);
      if reconciled.Failure? {
        r := Failure(reconciled.error);
        return;
      }
      resumed := |chain|;
      var cursor := reconciled.value;
      TipHeight();
      indexedBlock := if cursor.Some? then cursor.value.blockNumber else 0;
      r := IndexNext(rpc, head, cursor, fixed, view, logsOf);
    }

    static ghost function Height(start: nat, blocks: seq<Block>): nat {
      if blocks == [] then 0 else start + |blocks| - 1
    }

    lemma TipHeight()
      requires Valid()
      ensures chain != [] ==> TipOf(chain).value.blockNumber == Height(startBlock, chain)
    {
      hide ApplyAll, IsReplay;
      if chain != [] {
        TipNumber(startBlock, store.Db(), chain);
      }
    }

    /** Reconciling against a chain that stands still never fails, and leaves a chain that agrees with it. */
    method Reconcile(rpc: Rpc, head: nat, ghost fixed: bool, ghost view: ChainView, ghost logsOf: Hash -> seq<RawLog>)
      returns (r: Result<Option<Cursor>>)
      requires Valid() && FreshHash(rpc) && rpc.head == Success(head)
      requires fixed ==> && Honest() && ValidView(view, headerOf, logsOf) && rpc == RpcOf(view)
                         && replay == LogsOfChain(logsOf, chain)
      modifies this, store
      ensures Valid()
      ensures chainHead == old(chainHead)
      ensures r.Failure? ==> chain == old(chain) && replay == old(replay) && reorgs == old(reorgs)
      ensures r.Success? ==> NextIsNew(rpc, startBlock, chain)
      ensures r.Success? ==> && |chain| <= |old(chain)| && chain == old(chain)[..|chain|]
                             && Resumes(rpc, head, startBlock, old(chain), |chain|)
                             && replay == LogsOfFirst(startBlock, old(replay), |chain|)
                             && reorgs == old(reorgs) + (if Stands(rpc, head, startBlock, old(chain)) then 0 else 1)
      ensures r.Success? ==> r.value == TipOf(chain)
      ensures r.Failure? ==> exists site: CallSite, n: nat :: n <= head && rpc.block(site, n) == Failure(r.error)
      ensures fixed ==>
                && r.Success? && Honest() && replay == LogsOfChain(logsOf, chain) && Agrees(view, startBlock, chain)
                && head == |view.headers| - 1 && reorgs <= old(reorgs) + 1
                && (old(Agrees(view, startBlock, chain)) ==> reorgs == old(reorgs) && chain == old(chain))
    {
      hide Consistent, Through, ApplyAll, ValidView, IsCanonicalChain, IsReplay, LogsOfChain, Agrees, Fetched, Honest;
      ghost var before, replayBefore := chain, replay;
      if fixed {
        ViewHeights(view, headerOf, logsOf);
        HeightsOfChain();
        AgreesIffTipMatches(view, logsOf);
      }
      ghost var ancestor;
      r, ancestor := ReconcileCursor(rpc, head);
      if fixed && reorgs != old(reorgs) {
        RewindKeepsLogs(view, logsOf, before, replayBefore, ancestor);
      }
      if fixed {
        AgreesIffTipMatches(view, logsOf);
      }
    }

    /** The part of a pass after the cursor is reconciled: index the block above it, if there is one. */
    method IndexNext(rpc: Rpc, head: nat, cursor: Option<Cursor>, ghost fixed: bool, ghost view: ChainView,
                     ghost logsOf: Hash -> seq<RawLog>)
      returns (r: Result<Progress>)
      requires Valid() && NextIsNew(rpc, startBlock, chain) && OrderedLogs(rpc)
      requires cursor == TipOf(chain) && rpc.head == Success(head)
      requires fixed ==> && Honest() && ValidView(view, headerOf, logsOf) && rpc == RpcOf(view)
                         && head == |view.headers| - 1
                         && replay == LogsOfChain(logsOf, chain) && Agrees(view, startBlock, chain)
      modifies this, store
      ensures Valid() && chainHead == old(chainHead)
      ensures Leaves(rpc, head, startBlock, old(chain), old(replay), r, chain, replay)
      ensures reorgs == old(reorgs) + (if r == Success(Rewound) then 1 else 0)
      ensures r == Success(Done) ==> indexedBlock == old(indexedBlock) && chain == old(chain)
      ensures r == Success(Indexed) ==> indexedBlock == Height(startBlock, chain)
      ensures r.Failure? ==> ReadFails(rpc) || NextCannotBeIndexed(rpc, store.derived)
      ensures fixed ==> Honest() && replay == LogsOfChain(logsOf, chain) && reorgs == old(reorgs)
      ensures fixed ==>
                && Agrees(view, startBlock, chain)
                && match r
                   case Success(Done) => startBlock + |chain| >= |view.headers| && chain == old(chain)
                   case Success(Indexed) => |chain| == |old(chain)| + 1
                   case Success(Rewound) => false
                   case Failure(_) => NextBlockDoesNotApply(market, startBlock, chain, view, logsOf)
    {
      hide Consistent, Through, ApplyAll, ValidView, IsCanonicalChain, IsReplay, LogsOfChain, Agrees, Fetched, Honest,
           CannotIndex, NextBlockDoesNotApply, Leaves;
      LeavesAll(rpc, head, startBlock, chain, replay);
      if fixed {
        ViewHeights(view, headerOf, logsOf);
      }
      if cursor.Some? {
        ChainOf(market, startBlock, store.Db(), chain, replay);
        TipNumber(startBlock, store.Db(), chain);
        if cursor.value.blockNumber == MAX_UINT64 {
          return Success(Done);
        }
      }
      var nextBlock := if cursor.Some? then cursor.value.blockNumber + 1 else startBlock;
      if nextBlock > head {
        return Success(Done);
      }
      if fixed {
        NextHeaderOfView(view, logsOf);
      }
      var answer :- rpc.block(NextHeader, nextBlock);
      if answer.None? {
        assert !Answers(rpc, NextHeader, nextBlock);
        return Failure(MissingBlock);
      }
      var header := answer.value;
      if header.number != nextBlock {
        assert !Answers(rpc, NextHeader, nextBlock);
        return Failure(BlockNumberMismatch);
      }
      r := TakeNext(rpc, head, cursor, header, fixed, view, logsOf);
    }

    static lemma LeavesAll(rpc: Rpc, head: nat, start: nat, blocks: seq<Block>, rows: seq<RawLog>)
      ensures forall e :: Leaves(rpc, head, start, blocks, rows, Failure(e), blocks, rows)
      ensures start + |blocks| > head || start + |blocks| > MAX_UINT64 ==>
                Leaves(rpc, head, start, blocks, rows, Success(Done), blocks, rows)
    {
    }

    static lemma LeavesOneMore(rpc: Rpc, head: nat, start: nat, blocks: seq<Block>, rows: seq<RawLog>,
                               more: seq<RawLog>)
      requires start + |blocks| <= head && Answers(rpc, NextHeader, start + |blocks|) && Links(rpc, start, blocks)
      requires rpc.logs(start + |blocks|).Success?
      requires Fetched(rpc.logs(start + |blocks|).value, rpc.block(NextHeader, start + |blocks|).value.value, more)
      ensures Leaves(rpc, head, start, blocks, rows, Success(Indexed),
                     blocks + [BlockOf(rpc.block(NextHeader, start + |blocks|).value.value)], rows + more)
    {
      hide Fetched;
    }

    static lemma LeavesFewer(rpc: Rpc, head: nat, start: nat, blocks: seq<Block>, rows: seq<RawLog>, n: nat)
      requires start + |blocks| <= head && Answers(rpc, NextHeader, start + |blocks|) && !Links(rpc, start, blocks)
      requires EndsAtHighest(rpc, MismatchSearch, head, start, blocks, n)
      ensures Leaves(rpc, head, start, blocks, rows, Success(Rewound), blocks[..n], LogsOfFirst(start, rows, n))
    {
      hide EndsAtHighest, LogsOfFirst;
      assert |blocks[..n]| == n by { HighestIsStored(rpc, MismatchSearch, head, start, blocks, n); }
    }

    static lemma HighestIsStored(rpc: Rpc, site: CallSite, head: nat, start: nat, blocks: seq<Block>, n: nat)
      requires EndsAtHighest(rpc, site, head, start, blocks, n)
      ensures n <= |blocks|
    {
    }

    /** The next header was read: index its block, or go back if it does not link to the cursor's. */
    method TakeNext(rpc: Rpc, head: nat, cursor: Option<Cursor>, header: Header, ghost fixed: bool,
                    ghost view: ChainView, ghost logsOf: Hash -> seq<RawLog>)
      returns (r: Result<Progress>)
      requires Valid() && NextIsNew(rpc, startBlock, chain) && OrderedLogs(rpc)
      requires cursor == TipOf(chain) && rpc.head == Success(head) && header.number == startBlock + |chain| <= head
      requires rpc.block(NextHeader, header.number) == Success(Some(header))
      requires fixed ==> && Honest() && ValidView(view, headerOf, logsOf) && rpc == RpcOf(view)
                         && head == |view.headers| - 1 && header == view.headers[header.number]
                         && replay == LogsOfChain(logsOf, chain) && Agrees(view, startBlock, chain)
      modifies this, store
      ensures Valid() && chainHead == old(chainHead) && r != Success(Done)
      ensures Leaves(rpc, head, startBlock, old(chain), old(replay), r, chain, replay)
      ensures reorgs == old(reorgs) + (if r == Success(Rewound) then 1 else 0)
      ensures r == Success(Indexed) ==> indexedBlock == Height(startBlock, chain)
      ensures r.Failure? ==> ReadFails(rpc) || NextCannotBeIndexed(rpc, store.derived)
      ensures fixed ==> && Honest() && replay == LogsOfChain(logsOf, chain) && reorgs == old(reorgs)
                        && Agrees(view, startBlock, chain)
                        && match r
                           case Success(_) => r == Success(Indexed) && |chain| == |old(chain)| + 1
                           case Failure(_) => NextBlockDoesNotApply(market, startBlock, chain, view, logsOf)
    {
      hide Consistent, Through, ApplyAll, ValidView, IsCanonicalChain, IsReplay, LogsOfChain, Agrees, Fetched, Honest,
           CannotIndex, NextBlockDoesNotApply, EndsAtHighest, Has, LogsOfFirst, Leaves;
      LeavesAll(rpc, head, startBlock, chain, replay);
      assert Answers(rpc, NextHeader, header.number);
      if fixed {
        ViewHeights(view, headerOf, logsOf);
        NextHeaderOfView(view, logsOf);
      }
      if cursor.Some? && header.parentHash != cursor.value.blockHash {
        TipHeight();
        var rewound, _ := RewindToHighest(rpc, MismatchSearch, head, cursor.value.blockNumber);
        if rewound.Success? {
          LeavesFewer(rpc, head, startBlock, old(chain), old(replay), |chain|);
        }
        var _ :- rewound;
        return Success(Rewound);
      }
      if fixed {
        NextBlockApplies(rpc, view, logsOf);
      }
      var indexed, newLogs := IndexBlock(rpc, header);
      if fixed && indexed.Success? {
        assert rpc.logs(header.number) == Success(view.logs[header.number]);
        NextBlockAgrees(view, logsOf, header, newLogs);
      }
      var _ :- indexed;
      LeavesOneMore(rpc, head, startBlock, old(chain), old(replay), newLogs);
      indexedBlock := header.number;
      return Success(Indexed);
    }

    /** On an agreeing chain, the node's next header has its height and links to the tip. */
    lemma {:induction false} NextHeaderOfView(view: ChainView, logsOf: Hash -> seq<RawLog>)
      requires ValidView(view, headerOf, logsOf) && Agrees(view, startBlock, chain)
      requires startBlock + |chain| < |view.headers|
      ensures var header := view.headers[startBlock + |chain|];
              && header.number == startBlock + |chain| && headerOf(header.hash) == header
              && (chain != [] ==> header.parentHash == chain[|chain| - 1].hash)
    {
      hide Fetched, TransactionOrdered;
      if chain != [] {
        var tip := |chain| - 1;
        assert chain[tip].hash == view.headers[startBlock + tip].hash;
        assert view.headers[startBlock + tip + 1].parentHash == view.headers[startBlock + tip].hash;
      }
    }

    /** The logs of the node's next block can be indexed if and only if they apply. */
    lemma {:induction false} NextBlockApplies(rpc: Rpc, view: ChainView, logsOf: Hash -> seq<RawLog>)
      requires Valid() && ValidView(view, headerOf, logsOf) && rpc == RpcOf(view)
      requires replay == LogsOfChain(logsOf, chain) && startBlock + |chain| < |view.headers|
      ensures CannotIndex(rpc, view.headers[startBlock + |chain|], store.derived) <==>
          NextBlockDoesNotApply(market, startBlock, chain, view, logsOf)
    {
      hide Fetched, TransactionOrdered, ApplyAll, LogsOfChain, IsCanonicalChain, IsReplay;
      var n := startBlock + |chain|;
      var header := view.headers[n];
      assert rpc.logs(n) == Success(view.logs[n]) && header.number == n;
      assert Fetched(view.logs[n], header, logsOf(header.hash));
      FetchedNothingForeign(view.logs[n], header, logsOf(header.hash));
      OnlyTheseRows(rpc, header, logsOf(header.hash));
      ApplyAllConcat(market, CreateInitialState(), replay, logsOf(header.hash));
    }

    /** Syncs to the head of a chain that stands still during the call: whatever chain the store held before, the
        call terminates after at most one rewind. It returns if and only if the logs of the node's blocks from the
        start block to the head apply, and then the stored canonical blocks are those blocks and the replayed logs
        are theirs. */
    method SyncToHead(view: ChainView, ghost logsOf: Hash -> seq<RawLog>) returns (r: Result<nat>)
      requires Valid() && Honest() && ValidView(view, headerOf, logsOf) && replay == LogsOfChain(logsOf, chain)
      modifies this, store
      ensures Valid() && Honest() && replay == LogsOfChain(logsOf, chain)
      ensures reorgs <= old(reorgs) + 1
      ensures old(Agrees(view, startBlock, chain)) ==> reorgs == old(reorgs)
      ensures r.Success? <==>
              ApplyAll(market, CreateInitialState(), LogsOfChain(logsOf, BlocksOf(view, startBlock))).Success?
      ensures r.Success? ==> chain == BlocksOf(view, startBlock)
      ensures r.Success? && old(Agrees(view, startBlock, chain)) ==> r.value == |chain| - |old(chain)|
    {
      hide Consistent, Through, ApplyAll, IsCanonicalChain, IsReplay, LogsOfChain, Agrees, Fetched, TransactionOrdered,
           Honest, FreshHash, BlocksOf, NextBlockDoesNotApply, ReadFails, CannotIndex;
      EmptyAnswerIsOrdered();
      var rpc := RpcOf(view);
      var indexedCount := 0;
      while true
        invariant Valid() && Honest() && replay == LogsOfChain(logsOf, chain)
        invariant old(Agrees(view, startBlock, chain)) ==>
                    && Agrees(view, startBlock, chain) && reorgs == old(reorgs)
                    && indexedCount == |chain| - |old(chain)|
        invariant Agrees(view, startBlock, chain) || reorgs == old(reorgs)
        invariant reorgs <= old(reorgs) + 1
        decreases if Agrees(view, startBlock, chain) then 0 else 1, |view.headers| - startBlock - |chain|
      {
        hide ValidView;
        AgreesWithinView(view, startBlock, chain);
        ViewIsFresh(view, logsOf);
        var progress, _ := SyncIteration(rpc, true, view, logsOf);
        if progress.Failure? {
          ViewDoesNotApply(view, logsOf);
          return Failure(progress.error);
        }
        if progress.value.Done? {
          AgreeingChainIsView(view, logsOf);
          ReplayApplies();
          return Success(indexedCount);
        }
        AgreesWithinView(view, startBlock, chain);
        indexedCount := indexedCount + 1;
      }
    }

    /** The node's headers are fresh for an honest store: a hash has one height. */
    lemma {:induction false} ViewIsFresh(view: ChainView, logsOf: Hash -> seq<RawLog>)
      requires Valid() && Honest() && ValidView(view, headerOf, logsOf)
      ensures FreshHash(RpcOf(view))
    {
      hide Fetched, TransactionOrdered, ApplyAll, IsReplay;
      HeightsOfChain();
      var rpc := RpcOf(view);
      forall n: nat | Resumes(rpc, rpc.head.value, startBlock, chain, n)
        ensures NextIsNew(rpc, startBlock, chain[..n])
      {
        forall i | 0 <= i < n && Answers(rpc, NextHeader, startBlock + n)
          ensures rpc.block(NextHeader, startBlock + n).value.value.hash != chain[..n][i].hash
        {
          assert headerOf(view.headers[startBlock + n].hash).number == startBlock + n;
        }
      }
    }

    lemma ReplayApplies()
      requires Valid()
      ensures ApplyAll(market, CreateInitialState(), replay).Success?
    {
      hide ApplyAll, IsCanonicalChain, IsReplay;
    }

    /** If the next block's logs do not apply on an agreeing chain, the node's logs do not apply. */
    lemma {:induction false} ViewDoesNotApply(view: ChainView, logsOf: Hash -> seq<RawLog>)
      requires Agrees(view, startBlock, chain) && NextBlockDoesNotApply(market, startBlock, chain, view, logsOf)
      ensures ApplyAll(market, CreateInitialState(), LogsOfChain(logsOf, BlocksOf(view, startBlock))).Failure?
    {
      hide ApplyAll;
      var blocks, n := BlocksOf(view, startBlock), |chain|;
      forall i | 0 <= i <= n ensures blocks[i].hash == view.headers[startBlock + i].hash {
        BlockAt(view, startBlock, i);
      }
      SameHashesSameLogs(logsOf, chain, blocks[..n]);
      assert blocks[..n + 1][..n] == blocks[..n];
      assert LogsOfChain(logsOf, blocks[..n + 1])
             == LogsOfChain(logsOf, chain) + logsOf(view.headers[startBlock + n].hash);
      LogsOfPrefix(logsOf, blocks, n + 1);
      var rest :| LogsOfChain(logsOf, blocks) == LogsOfChain(logsOf, blocks[..n + 1]) + rest;
      ApplyAllConcat(market, CreateInitialState(), LogsOfChain(logsOf, blocks[..n + 1]), rest);
    }

    /** The hash of a header one above the chain is not the hash of a canonical block. */
    lemma HashIsNew(hash: Hash)
      requires Valid() && forall i :: 0 <= i < |chain| ==> chain[i].hash != hash
      ensures hash in store.blocks ==> !store.blocks[hash].canonical
    {
      hide ApplyAll, IsReplay;
      assert hash in store.blocks ==> Filed(startBlock, store.Db(), chain, hash);
    }

    /** A chain that agrees with the node's up to its head is the node's. */
    lemma {:induction false} AgreeingChainIsView(view: ChainView, logsOf: Hash -> seq<RawLog>)
      requires Valid() && Honest() && ValidView(view, headerOf, logsOf) && Agrees(view, startBlock, chain)
      requires startBlock + |chain| >= |view.headers|
      ensures chain == BlocksOf(view, startBlock)
    {
      hide ApplyAll, IsReplay;
      forall i | 0 <= i < |chain|
        ensures startBlock + i < |view.headers| && chain[i] == BlockOf(view.headers[startBlock + i])
      {
        assert InPlace(startBlock, store.Db(), chain, i);
      }
    }

    lemma HeightsOfChain()
      requires Valid() && Honest()
      ensures forall i :: 0 <= i < |chain| ==> headerOf(chain[i].hash).number == startBlock + i
    {
      hide ApplyAll, IsReplay;
      forall i | 0 <= i < |chain|
        ensures headerOf(chain[i].hash).number == startBlock + i
      {
        assert InPlace(startBlock, store.Db(), chain, i);
      }
    }

    /** A stored chain is part of the node's exactly when its tip is. */
    lemma {:induction false} AgreesIffTipMatches(view: ChainView, logsOf: Hash -> seq<RawLog>)
      requires Valid() && Honest() && ValidView(view, headerOf, logsOf)
      ensures Agrees(view, startBlock, chain) <==>
              (chain != [] ==>
                 startBlock + |chain| - 1 < |view.headers|
                 && chain[|chain| - 1].hash == view.headers[startBlock + |chain| - 1].hash)
      ensures |view.headers| > 0
      ensures forall site: CallSite, n :: chain != [] && n == startBlock + |chain| - 1 ==>
                               (Matches(RpcOf(view), site, n) <==>
                                n < |view.headers| && chain[|chain| - 1].hash == view.headers[n].hash)
      ensures chain != [] ==> chain[|chain| - 1].number == startBlock + |chain| - 1
    {
      hide Consistent, IsCanonicalChain, IsReplay, ApplyAll, ValidView, Honest;
      ViewHeights(view, headerOf, logsOf);
      if chain != [] {
        ChainOf(market, startBlock, store.Db(), chain, replay);
        TipNumber(startBlock, store.Db(), chain);
        if startBlock + |chain| - 1 < |view.headers|
           && chain[|chain| - 1].hash == view.headers[startBlock + |chain| - 1].hash
        {
          forall i | 0 <= i < |chain|
            ensures startBlock + i < |view.headers| && chain[i].hash == view.headers[startBlock + i].hash
          {
            AgreesBelowTip(view, logsOf, i);
          }
        }
      }
    }

    lemma {:induction false} AgreesBelowTip(view: ChainView, logsOf: Hash -> seq<RawLog>, i: nat)
      requires Valid() && Honest() && ValidView(view, headerOf, logsOf) && i < |chain|
      requires startBlock + |chain| - 1 < |view.headers|
      requires chain[|chain| - 1].hash == view.headers[startBlock + |chain| - 1].hash
      ensures chain[i].hash == view.headers[startBlock + i].hash
      decreases |chain| - i
    {
      hide ApplyAll, IsReplay;
      if i < |chain| - 1 {
        AgreesBelowTip(view, logsOf, i + 1);
        assert InPlace(startBlock, store.Db(), chain, i + 1);
        assert view.headers[startBlock + i + 1].parentHash == view.headers[startBlock + i].hash;
      }
    }

    /** Rewinding keeps the replay equal to the logs of the blocks that remain. */
    lemma {:induction false} RewindKeepsLogs(view: ChainView, logsOf: Hash -> seq<RawLog>, before: seq<Block>,
                                             replayBefore: seq<RawLog>, ancestor: Option<Block>)
      requires ValidView(view, headerOf, logsOf) && replayBefore == LogsOfChain(logsOf, before)
      requires OnChain(startBlock, before, ancestor)
      requires forall i :: 0 <= i < |before| ==> headerOf(before[i].hash).number == startBlock + i
      ensures KeptLogs(replayBefore, ancestor) == LogsOfChain(logsOf, before[..KeptBlocks(startBlock, ancestor)])
    {
      if ancestor.Some? {
        ThroughLogsOfChain(logsOf, before, startBlock, ancestor.value.number);
      }
    }

    /** The block indexed on an agreeing chain agrees, and brings the logs its hash stands for. */
    lemma {:induction false} NextBlockAgrees(view: ChainView, logsOf: Hash -> seq<RawLog>, header: Header,
                                             newLogs: seq<RawLog>)
      requires ValidView(view, headerOf, logsOf) && chain != [] && header.number == startBlock + |chain| - 1
      requires header.number < |view.headers| && header == view.headers[header.number]
      requires chain[|chain| - 1].hash == header.hash && Agrees(view, startBlock, chain[..|chain| - 1])
      requires Fetched(view.logs[header.number], header, newLogs)
      ensures Agrees(view, startBlock, chain)
      ensures newLogs == logsOf(header.hash)
      ensures LogsOfChain(logsOf, chain) == LogsOfChain(logsOf, chain[..|chain| - 1]) + newLogs
    {
      hide Fetched, TransactionOrdered;
      var n := |chain| - 1;
      assert Fetched(view.logs[header.number], header, logsOf(header.hash));
      FetchedOnce(view.logs[header.number], header, newLogs, logsOf(header.hash));
      forall i | 0 <= i < |chain|
        ensures startBlock + i < |view.headers| && chain[i].hash == view.headers[startBlock + i].hash
      {
        assert i < n ==> chain[..n][i] == chain[i];
      }
    }
  }

  /** The logs of a chain begin with those of its lower part. */
  lemma {:induction false} LogsOfPrefix(logsOf: Hash -> seq<RawLog>, blocks: seq<Block>, n: nat)
    requires n <= |blocks|
    ensures exists rest :: LogsOfChain(logsOf, blocks) == LogsOfChain(logsOf, blocks[..n]) + rest
  {
    if n == |blocks| {
      assert blocks[..n] == blocks;
      assert LogsOfChain(logsOf, blocks) == LogsOfChain(logsOf, blocks[..n]) + [];
    } else {
      var k := |blocks| - 1;
      LogsOfPrefix(logsOf, blocks[..k], n);
      assert blocks[..k][..n] == blocks[..n];
      var rest :| LogsOfChain(logsOf, blocks[..k]) == LogsOfChain(logsOf, blocks[..n]) + rest;
      assert LogsOfChain(logsOf, blocks) == LogsOfChain(logsOf, blocks[..n]) + (rest + logsOf(blocks[k].hash));
    }
  }

  lemma {:induction false} SameHashesSameLogs(logsOf: Hash -> seq<RawLog>, a: seq<Block>, b: seq<Block>)
    requires |a| == |b| && forall i :: 0 <= i < |a| ==> a[i].hash == b[i].hash
    ensures LogsOfChain(logsOf, a) == LogsOfChain(logsOf, b)
  {
    if a != [] {
      SameHashesSameLogs(logsOf, a[..|a| - 1], b[..|b| - 1]);
    }
  }

  lemma WholeReplayOf(start: nat, db: Database, chain: seq<Block>, replay: seq<RawLog>)
    requires IsReplay(start, db, chain, replay)
    ensures Indexer.LogsOfFirst(start, replay, |chain|) == replay
  {
    hide StrictlyOrdered, Through;
    assert replay != [] ==> replay[0] in replay;
    forall l | l in replay ensures l.blockNumber < start + |chain| {
      assert Replayed(start, db, chain, l);
    }
    if chain != [] {
      ThroughEverything(replay, start + |chain| - 1);
    }
  }

  lemma FetchedNothingForeign(answer: seq<RpcLog>, header: Header, rows: seq<RawLog>)
    requires Fetched(answer, header, rows)
    ensures !exists x :: x in answer && Foreign(x, header)
  {
    forall x | x in answer ensures !Foreign(x, header) {
      if !x.removed {
        assert x.log.(canonical := true) in rows;
      }
    }
  }

  lemma {:induction false} ThroughLogsOfChain(logsOf: Hash -> seq<RawLog>, chain: seq<Block>, start: nat, n: nat)
    requires start <= n < start + |chain|
    requires forall i, l :: 0 <= i < |chain| && l in logsOf(chain[i].hash) ==> l.blockNumber == start + i
    ensures Through(LogsOfChain(logsOf, chain), n) == LogsOfChain(logsOf, chain[..n - start + 1])
    decreases |chain|
  {
    var last := |chain| - 1;
    var init := chain[..last];
    ThroughConcat(LogsOfChain(logsOf, init), logsOf(chain[last].hash), n);
    if n == start + last {
      ThroughEverything(logsOf(chain[last].hash), n);
      LogNumbers(logsOf, init, start);
      ThroughEverything(LogsOfChain(logsOf, init), n);
      assert chain[..n - start + 1] == chain;
    } else {
      ThroughNothing(logsOf(chain[last].hash), n);
      ThroughLogsOfChain(logsOf, init, start, n);
      assert init[..n - start + 1] == chain[..n - start + 1];
    }
  }

  lemma {:induction false} LogNumbers(logsOf: Hash -> seq<RawLog>, chain: seq<Block>, start: nat)
    requires forall i, l :: 0 <= i < |chain| && l in logsOf(chain[i].hash) ==> l.blockNumber == start + i
    ensures forall l :: l in LogsOfChain(logsOf, chain) ==> l.blockNumber < start + |chain|
  {
    if chain != [] {
      LogNumbers(logsOf, chain[..|chain| - 1], start);
    }
  }

  lemma {:induction false} ThroughConcat(s: seq<RawLog>, t: seq<RawLog>, n: nat)
    ensures Through(s + t, n) == Through(s, n) + Through(t, n)
    decreases |t|
  {
    if t == [] {
      assert s + t == s;
    } else {
      assert (s + t)[..|s + t| - 1] == s + t[..|t| - 1];
      ThroughConcat(s, t[..|t| - 1], n);
    }
  }

  lemma {:induction false} ThroughNothing(s: seq<RawLog>, n: nat)
    requires forall l :: l in s ==> l.blockNumber > n
    ensures Through(s, n) == []
  {
    if s != [] {
      assert s[|s| - 1] in s;
      ThroughNothing(s[..|s| - 1], n);
    }
  }

  lemma {:induction false} ViewHeights(view: ChainView, headerOf: Hash -> Header, logsOf: Hash -> seq<RawLog>)
    requires ValidView(view, headerOf, logsOf)
    ensures 0 < |view.headers| <= MAX_UINT64 + 1 && |view.logs| == |view.headers|
  {
  }

  /** The rows of the logs that were not removed, in order. */
  function KeptRows(answer: seq<RpcLog>): seq<RawLog> {
    if answer == [] then [] else
    var n := |answer| - 1;
    KeptRows(answer[..n]) + if answer[n].removed then [] else [answer[n].log.(canonical := true)]
  }

  /** Sorts an answer by log index, drops removed logs and rejects those of another block. */
  method FetchLogs(answer: seq<RpcLog>, header: Header) returns (r: Result<seq<RawLog>>)
    requires TransactionOrdered(answer)
    ensures r.Success? ==> Fetched(answer, header, r.value)
    ensures r.Failure? ==> r.error == BlockChangedDuringFetch
    ensures r.Failure? <==> exists x :: x in answer && Foreign(x, header)
  {
    hide TransactionOrdered, Fetched, Foreign;
    var byIndex := (x: RpcLog, y: RpcLog) => x.log.logIndex < y.log.logIndex;
    var sorted := Sort(answer, byIndex);
    SortedStrictly(answer, sorted, byIndex);
    var logs: seq<RawLog> := [];
    for i := 0 to |sorted|
      invariant logs == KeptRows(sorted[..i])
      invariant forall k :: 0 <= k < i ==> !Foreign(sorted[k], header)
    {
      assert sorted[..i + 1][..i] == sorted[..i];
      var x := sorted[i];
      assert x in answer;
      ForeignMeans(x, header);
      if !x.removed {
        if x.log.blockNumber != header.number || x.log.blockHash != header.hash {
          return Failure(BlockChangedDuringFetch);
        }
        logs := logs + [x.log.(canonical := true)];
      }
    }
    assert sorted[..|sorted|] == sorted;
    KeptRowsAreFetched(answer, sorted, header);
    return Success(logs);
  }

  lemma ForeignMeans(x: RpcLog, header: Header)
    ensures Foreign(x, header) <==> !x.removed && (x.log.blockNumber != header.number || x.log.blockHash != header.hash)
  {
  }

  ghost predicate Keeps(x: RpcLog, l: RawLog) {
    !x.removed && l == x.log.(canonical := true)
  }

  lemma {:induction false} KeptRow(answer: seq<RpcLog>, l: RawLog)
    ensures l in KeptRows(answer) <==> exists x :: x in answer && Keeps(x, l)
  {
    if answer != [] {
      var n := |answer| - 1;
      KeptRow(answer[..n], l);
      assert answer == answer[..n] + [answer[n]];
      assert Keeps(answer[n], l) ==> answer[n] in answer;
    }
  }

  lemma {:induction false} KeptRowsInOrder(answer: seq<RpcLog>)
    requires forall i, j :: 0 <= i < j < |answer| ==> answer[i].log.logIndex < answer[j].log.logIndex
    ensures forall p, q :: 0 <= p < q < |KeptRows(answer)| ==>
              KeptRows(answer)[p].logIndex < KeptRows(answer)[q].logIndex
  {
    if answer != [] {
      var n := |answer| - 1;
      var front := KeptRows(answer[..n]);
      KeptRowsInOrder(answer[..n]);
      forall p | 0 <= p < |front| ensures front[p].logIndex < answer[n].log.logIndex {
        KeptRow(answer[..n], front[p]);
        var x :| x in answer[..n] && Keeps(x, front[p]);
        var k :| 0 <= k < n && answer[k] == x;
      }
    }
  }

  /** A kept row comes from a log of the answer, of this block. */
  lemma KeptRowIsFetched(answer: seq<RpcLog>, sorted: seq<RpcLog>, header: Header, l: RawLog)
    requires forall x :: x in sorted <==> x in answer
    requires forall k :: 0 <= k < |sorted| ==> !Foreign(sorted[k], header)
    ensures l in KeptRows(sorted) <==> exists x :: x in answer && !x.removed && l == x.log.(canonical := true)
    ensures l in KeptRows(sorted) ==> l.canonical && l.blockNumber == header.number && l.blockHash == header.hash
  {
    hide KeptRows;
    KeptRow(sorted, l);
    if x :| x in answer && !x.removed && l == x.log.(canonical := true) {
      assert x in sorted && Keeps(x, l);
    }
    if l in KeptRows(sorted) {
      var x :| x in sorted && Keeps(x, l);
      var k :| 0 <= k < |sorted| && sorted[k] == x;
    }
  }

  lemma KeptRowsAreStrict(answer: seq<RpcLog>, logs: seq<RawLog>, n: nat)
    requires TransactionOrdered(answer)
    requires forall p, q :: 0 <= p < q < |logs| ==> logs[p].logIndex < logs[q].logIndex
    requires forall p :: 0 <= p < |logs| ==>
               logs[p].blockNumber == n && exists x :: x in answer && !x.removed && logs[p] == x.log.(canonical := true)
    ensures StrictlyOrdered(logs)
  {
    forall p, q | 0 <= p < q < |logs| ensures Before(logs[p], logs[q]) {
      var x :| x in answer && !x.removed && logs[p] == x.log.(canonical := true);
      var y :| y in answer && !y.removed && logs[q] == y.log.(canonical := true);
      assert x.log.logIndex < y.log.logIndex;
    }
  }

  lemma KeptRowsAreFetched(answer: seq<RpcLog>, sorted: seq<RpcLog>, header: Header)
    requires TransactionOrdered(answer) && forall x :: x in sorted <==> x in answer
    requires forall i, j :: 0 <= i < j < |sorted| ==> sorted[i].log.logIndex < sorted[j].log.logIndex
    requires forall k :: 0 <= k < |sorted| ==> !Foreign(sorted[k], header)
    ensures Fetched(answer, header, KeptRows(sorted))
  {
    hide KeptRows, TransactionOrdered, StrictlyOrdered, Foreign;
    var logs := KeptRows(sorted);
    KeptRowsInOrder(sorted);
    forall l
      ensures l in logs <==> exists x :: x in answer && !x.removed && l == x.log.(canonical := true)
      ensures l in logs ==> l.canonical && l.blockNumber == header.number && l.blockHash == header.hash
    {
      KeptRowIsFetched(answer, sorted, header, l);
    }
    forall p | 0 <= p < |logs|
      ensures logs[p].blockNumber == header.number
      ensures exists x :: x in answer && !x.removed && logs[p] == x.log.(canonical := true)
    {
      assert logs[p] in logs;
    }
    KeptRowsAreStrict(answer, logs, header.number);
  }

  lemma {:induction false} SortedStrictly(answer: seq<RpcLog>, sorted: seq<RpcLog>, byIndex: (RpcLog, RpcLog) -> bool)
    requires TransactionOrdered(answer) && multiset(sorted) == multiset(answer) && SortedBy(sorted, byIndex)
    requires forall x, y :: byIndex(x, y) == (x.log.logIndex < y.log.logIndex)
    ensures forall i, j :: 0 <= i < j < |sorted| ==> sorted[i].log.logIndex < sorted[j].log.logIndex
    ensures forall x :: x in sorted <==> x in answer
  {
    assert forall x :: x in sorted <==> x in multiset(sorted);
    assert forall x :: x in answer <==> x in multiset(answer);
    forall i, j | 0 <= i < j < |sorted|
      ensures sorted[i].log.logIndex < sorted[j].log.logIndex
    {
      assert !byIndex(sorted[j], sorted[i]);
      assert sorted[i] in answer && sorted[j] in answer;
      if sorted[i] == sorted[j] {
        TwoPositions(sorted, i, j);
      }
    }
  }

  lemma CursorIsTip(start: nat, db: Database, chain: seq<Block>)
    requires IsCanonicalChain(start, db, chain)
    ensures db.cursor == TipOf(chain)
  {
  }

  lemma TipNumber(start: nat, db: Database, chain: seq<Block>)
    requires IsCanonicalChain(start, db, chain) && chain != []
    ensures chain[|chain| - 1].number == start + |chain| - 1
  {
    assert InPlace(start, db, chain, |chain| - 1);
  }

  lemma EmptyReplay(m: Market)
    ensures ApplyAll(m, CreateInitialState(), []) == Success(CreateInitialState())
  {
  }

  lemma ChainOf(m: Market, start: nat, db: Database, chain: seq<Block>, replay: seq<RawLog>)
    requires Consistent(m, start, db, chain, replay)
    ensures IsCanonicalChain(start, db, chain)
  {
  }

  lemma {:induction false} AllCanonical(logs: seq<RawLog>)
    requires forall l :: l in logs ==> l.canonical
    ensures CanonicalOnly(logs) == logs
  {
    if logs != [] {
      assert logs[|logs| - 1] in logs;
      AllCanonical(logs[..|logs| - 1]);
    }
  }
}
