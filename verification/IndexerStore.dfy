/** The indexer's tables and the two transactions that change them (PostgresStore.cpp), with the
    invariant that makes the derived state a replay of the canonical logs. */
module IndexerStore {
  import opened Results
  import opened RiskManager
  import opened StateProjector
  import opened ReplayOrder

  datatype Block = Block(number: nat, hash: Hash, parentHash: Hash, canonical: bool)

  datatype Cursor = Cursor(blockNumber: nat, blockHash: Hash)

  /** The primary key of a stored log. */
  datatype LogKey = LogKey(blockHash: Hash, transactionHash: Hash, logIndex: nat)

  function KeyOf(log: RawLog): LogKey {
    LogKey(log.blockHash, log.transactionHash, log.logIndex)
  }

  /** One chain's rows: blocks by hash, logs by key, the derived tables and the sync cursor. */
  datatype Database = Database(
    blocks: map<Hash, Block>,
    logs: map<LogKey, RawLog>,
    derived: DerivedState,
    cursor: Option<Cursor>)

  function EmptyDatabase(): Database {
    Database(map[], map[], CreateInitialState(), None)
  }

  function UpsertLogs(rows: map<LogKey, RawLog>, logs: seq<RawLog>): map<LogKey, RawLog> {
    if logs == [] then rows else
    UpsertLogs(rows, logs[..|logs| - 1])[KeyOf(logs[|logs| - 1]) := logs[|logs| - 1]]
  }

  /** The unique index allows one canonical block per height. */
  predicate HeightTaken(blocks: map<Hash, Block>, block: Block) {
    exists h :: h in blocks && h != block.hash && blocks[h].canonical && blocks[h].number == block.number
  }

  function CommitBlock(db: Database, block: Block, logs: seq<RawLog>, state: DerivedState): Result<Database> {
    if HeightTaken(db.blocks, block) then Failure(UniqueViolation) else
    Success(Database(db.blocks[block.hash := block], UpsertLogs(db.logs, logs), state,
                     Some(Cursor(block.number, block.hash))))
  }

  predicate Kept(ancestor: Option<Block>, blockNumber: nat) {
    ancestor.Some? && blockNumber <= ancestor.value.number
  }

  function RewindTo(db: Database, ancestor: Option<Block>, state: DerivedState): Database {
    Database(
      map h | h in db.blocks ::
        if Kept(ancestor, db.blocks[h].number) then db.blocks[h] else db.blocks[h].(canonical := false),
      map k | k in db.logs ::
        if Kept(ancestor, db.logs[k].blockNumber) then db.logs[k] else db.logs[k].(canonical := false),
      state,
      if ancestor.Some? then Some(Cursor(ancestor.value.number, ancestor.value.hash)) else None)
  }

  // The invariant --------------------------------------------------------------------------

  /** Block i of the chain is the stored canonical block at its height, linked to the one below. */
  ghost predicate InPlace(start: nat, db: Database, chain: seq<Block>, i: nat)
    requires i < |chain|
  {
    var b := chain[i];
    && b.number == start + i && b.canonical
    && b.hash in db.blocks && db.blocks[b.hash] == b
    && (i > 0 ==> b.parentHash == chain[i - 1].hash)
  }

  /** A stored block is filed under its hash, and is in the chain if it is canonical. */
  ghost predicate Filed(start: nat, db: Database, chain: seq<Block>, h: Hash)
    requires h in db.blocks
  {
    var b := db.blocks[h];
    && b.hash == h
    && (b.canonical ==> start <= b.number < start + |chain| && chain[b.number - start] == b)
  }

  ghost function TipOf(chain: seq<Block>): Option<Cursor> {
    if chain == [] then None else Some(Cursor(chain[|chain| - 1].number, chain[|chain| - 1].hash))
  }

  /** The canonical blocks are one contiguous, parent-linked chain from `start` to the cursor. */
  ghost predicate IsCanonicalChain(start: nat, db: Database, chain: seq<Block>) {
    && (forall i :: 0 <= i < |chain| ==> InPlace(start, db, chain, i))
    && (forall h :: h in db.blocks ==> Filed(start, db, chain, h))
    && db.cursor == TipOf(chain)
  }

  /** A replayed log is the stored row of its key, in the canonical block of its height. */
  ghost predicate Replayed(start: nat, db: Database, chain: seq<Block>, l: RawLog) {
    && l.canonical && KeyOf(l) in db.logs && db.logs[KeyOf(l)] == l
    && start <= l.blockNumber < start + |chain|
    && l.blockHash == chain[l.blockNumber - start].hash
  }

  /** The canonical logs in replay order, all in canonical blocks. */
  ghost predicate IsReplay(start: nat, db: Database, chain: seq<Block>, replay: seq<RawLog>) {
    && StrictlyOrdered(replay)
    && (forall l :: l in replay ==> Replayed(start, db, chain, l))
    && (forall k :: k in db.logs ==> KeyOf(db.logs[k]) == k && (db.logs[k].canonical ==> db.logs[k] in replay))
  }

  /** The stored derived state is the replay of the stored canonical logs. */
  ghost predicate Consistent(m: Market, start: nat, db: Database, chain: seq<Block>, replay: seq<RawLog>) {
    && IsCanonicalChain(start, db, chain)
    && IsReplay(start, db, chain, replay)
    && ApplyAll(m, CreateInitialState(), replay) == Success(db.derived)
  }

  lemma EmptyIsConsistent(m: Market, start: nat)
    ensures Consistent(m, start, EmptyDatabase(), [], [])
  {
  }

  /** A block that extends the chain, with its logs. */
  ghost predicate Extends(start: nat, chain: seq<Block>, block: Block, logs: seq<RawLog>) {
    && block.number == start + |chain| && block.canonical
    && (chain != [] ==> block.parentHash == chain[|chain| - 1].hash)
    && StrictlyOrdered(logs)
    && (forall i, j :: 0 <= i < j < |logs| ==> KeyOf(logs[i]) != KeyOf(logs[j]))
    && (forall l :: l in logs ==> l.blockNumber == block.number && l.blockHash == block.hash && l.canonical)
  }

  lemma {:induction false} UpsertedRows(rows: map<LogKey, RawLog>, logs: seq<RawLog>, k: LogKey)
    requires forall i, j :: 0 <= i < j < |logs| ==> KeyOf(logs[i]) != KeyOf(logs[j])
    ensures forall l :: l in logs && KeyOf(l) == k ==> k in UpsertLogs(rows, logs) && UpsertLogs(rows, logs)[k] == l
    ensures (forall l :: l in logs ==> KeyOf(l) != k) ==>
              && (k in UpsertLogs(rows, logs) <==> k in rows)
              && (k in rows ==> UpsertLogs(rows, logs)[k] == rows[k])
  {
    if logs != [] {
      var init := logs[..|logs| - 1];
      UpsertedRows(rows, init, k);
      forall l | l in logs && KeyOf(l) == k
        ensures k in UpsertLogs(rows, logs) && UpsertLogs(rows, logs)[k] == l
      {
        var i :| 0 <= i < |logs| && logs[i] == l;
        if i < |logs| - 1 {
          assert init[i] == l;
        }
      }
      assert forall l :: l in init ==> l in logs;
      assert logs[|logs| - 1] in logs;
    }
  }

  lemma OrderedAfter(replay: seq<RawLog>, logs: seq<RawLog>, n: nat)
    requires StrictlyOrdered(replay) && StrictlyOrdered(logs)
    requires forall l :: l in replay ==> l.blockNumber < n
    requires forall l :: l in logs ==> l.blockNumber == n
    ensures StrictlyOrdered(replay + logs)
  {
    var both := replay + logs;
    forall i, j | 0 <= i < j < |both|
      ensures Before(both[i], both[j])
    {
      if i < |replay| <= j {
        assert replay[i] in replay && logs[j - |replay|] in logs;
      }
    }
  }

  lemma CommitChain(start: nat, db: Database, chain: seq<Block>, block: Block, logs: seq<RawLog>, state: DerivedState)
    requires IsCanonicalChain(start, db, chain) && Extends(start, chain, block, logs)
    requires block.hash in db.blocks ==> !db.blocks[block.hash].canonical
    ensures CommitBlock(db, block, logs, state).Success?
    ensures IsCanonicalChain(start, CommitBlock(db, block, logs, state).value, chain + [block])
  {
    hide UpsertLogs, StrictlyOrdered;
    HeightIsFree(start, db, chain, block, logs);
    var db' := CommitBlock(db, block, logs, state).value;
    var chain' := chain + [block];
    forall i | 0 <= i < |chain'|
      ensures InPlace(start, db', chain', i)
    {
      if i < |chain| {
        assert InPlace(start, db, chain, i);
      }
    }
    forall h | h in db'.blocks
      ensures Filed(start, db', chain', h)
    {
      if h != block.hash {
        assert Filed(start, db, chain, h);
      }
    }
  }

  lemma HeightIsFree(start: nat, db: Database, chain: seq<Block>, block: Block, logs: seq<RawLog>)
    requires IsCanonicalChain(start, db, chain) && Extends(start, chain, block, logs)
    ensures !HeightTaken(db.blocks, block)
  {
    forall h | h in db.blocks && db.blocks[h].canonical
      ensures db.blocks[h].number != block.number
    {
      assert Filed(start, db, chain, h);
    }
  }

  lemma CommitReplay(start: nat, db: Database, chain: seq<Block>, replay: seq<RawLog>, block: Block, logs: seq<RawLog>,
                     state: DerivedState)
    requires IsCanonicalChain(start, db, chain) && IsReplay(start, db, chain, replay)
    requires Extends(start, chain, block, logs)
    requires block.hash in db.blocks ==> !db.blocks[block.hash].canonical
    requires CommitBlock(db, block, logs, state).Success?
    ensures IsReplay(start, CommitBlock(db, block, logs, state).value, chain + [block], replay + logs)
  {
    hide StrictlyOrdered, UpsertLogs;
    var db' := CommitBlock(db, block, logs, state).value;
    var chain', replay' := chain + [block], replay + logs;
    assert forall l :: l in replay ==> l.blockNumber < block.number by {
      forall l | l in replay ensures l.blockNumber < block.number {
        assert Replayed(start, db, chain, l);
      }
    }
    OrderedAfter(replay, logs, block.number);
    forall l | l in replay'
      ensures Replayed(start, db', chain', l)
    {
      CommittedRow(start, db, chain, replay, block, logs, l);
    }
    forall k | k in db'.logs
      ensures KeyOf(db'.logs[k]) == k && (db'.logs[k].canonical ==> db'.logs[k] in replay')
    {
      UpsertedRows(db.logs, logs, k);
      if l :| l in logs && KeyOf(l) == k {
        assert db'.logs[k] == l;
      }
    }
  }

  /** Upserting the new block's logs leaves every replayed row as it is and files every new one. */
  lemma CommittedRow(start: nat, db: Database, chain: seq<Block>, replay: seq<RawLog>, block: Block, logs: seq<RawLog>,
                     l: RawLog)
    requires IsCanonicalChain(start, db, chain) && IsReplay(start, db, chain, replay)
    requires Extends(start, chain, block, logs) && l in replay + logs
    requires block.hash in db.blocks ==> !db.blocks[block.hash].canonical
    ensures KeyOf(l) in UpsertLogs(db.logs, logs) && UpsertLogs(db.logs, logs)[KeyOf(l)] == l
    ensures l.canonical && start <= l.blockNumber < start + |chain| + 1
    ensures l.blockHash == (chain + [block])[l.blockNumber - start].hash
  {
    hide StrictlyOrdered, UpsertLogs;
    UpsertedRows(db.logs, logs, KeyOf(l));
    if l !in logs {
      assert Replayed(start, db, chain, l);
      assert InPlace(start, db, chain, l.blockNumber - start);
      assert l.blockHash != block.hash;
    }
  }

  /** Committing the next block with logs in order keeps the invariant. */
  lemma CommitKeepsConsistency(m: Market, start: nat, db: Database, chain: seq<Block>, replay: seq<RawLog>,
                               block: Block, logs: seq<RawLog>, state: DerivedState)
    requires Consistent(m, start, db, chain, replay) && Extends(start, chain, block, logs)
    requires block.hash in db.blocks ==> !db.blocks[block.hash].canonical
    requires ApplyAll(m, db.derived, logs) == Success(state)
    ensures CommitBlock(db, block, logs, state).Success?
    ensures Consistent(m, start, CommitBlock(db, block, logs, state).value, chain + [block], replay + logs)
  {
    hide ApplyAll, IsCanonicalChain, IsReplay, Extends, UpsertLogs, HeightTaken;
    CommitChain(start, db, chain, block, logs, state);
    CommitReplay(start, db, chain, replay, block, logs, state);
    ApplyAllConcat(m, CreateInitialState(), replay, logs);
  }

  /** The chain survives a commit exactly when the committed hash is not already canonical: a header that
      reused the hash of a stored canonical block would take that block's row and leave a hole. */
  lemma CommitKeepsChainIff(start: nat, db: Database, chain: seq<Block>, block: Block, logs: seq<RawLog>,
                            state: DerivedState)
    requires IsCanonicalChain(start, db, chain) && Extends(start, chain, block, logs)
    ensures CommitBlock(db, block, logs, state).Success?
    ensures (exists chain': seq<Block> ::
               IsCanonicalChain(start, CommitBlock(db, block, logs, state).value, chain')) <==>
            !(block.hash in db.blocks && db.blocks[block.hash].canonical)
  {
    hide IsCanonicalChain, Extends, UpsertLogs, HeightTaken;
    HeightIsFree(start, db, chain, block, logs);
    if block.hash in db.blocks && db.blocks[block.hash].canonical {
      forall chain': seq<Block>
        ensures !IsCanonicalChain(start, CommitBlock(db, block, logs, state).value, chain')
      {
        StolenRow(start, db, chain, block, logs, state);
        HoleBreaksChain(start, CommitBlock(db, block, logs, state).value, chain', block.hash,
                        db.blocks[block.hash].number);
      }
    } else {
      CommitChain(start, db, chain, block, logs, state);
    }
  }

  /** After the row is taken, no canonical block is left at its old height. */
  lemma StolenRow(start: nat, db: Database, chain: seq<Block>, block: Block, logs: seq<RawLog>, state: DerivedState)
    requires IsCanonicalChain(start, db, chain) && Extends(start, chain, block, logs)
    requires block.hash in db.blocks && db.blocks[block.hash].canonical
    requires CommitBlock(db, block, logs, state).Success?
    ensures var db' := CommitBlock(db, block, logs, state).value;
            var n := db.blocks[block.hash].number;
            && start <= n < block.number && block.canonical
            && block.hash in db'.blocks && db'.blocks[block.hash] == block
            && forall h :: h in db'.blocks && db'.blocks[h].canonical ==> db'.blocks[h].number != n
  {
    hide UpsertLogs, StrictlyOrdered;
    var db' := CommitBlock(db, block, logs, state).value;
    assert Filed(start, db, chain, block.hash);
    forall h | h in db'.blocks && db'.blocks[h].canonical
      ensures db'.blocks[h].number != db.blocks[block.hash].number
    {
      if h != block.hash {
        assert Filed(start, db, chain, h);
      }
    }
  }

  /** A height without a canonical block, below one with, is not part of any chain. */
  lemma HoleBreaksChain(start: nat, db: Database, chain: seq<Block>, h: Hash, n: nat)
    requires h in db.blocks && db.blocks[h].canonical && start <= n < db.blocks[h].number
    requires forall g :: g in db.blocks && db.blocks[g].canonical ==> db.blocks[g].number != n
    ensures !IsCanonicalChain(start, db, chain)
  {
    assert IsCanonicalChain(start, db, chain) ==> Filed(start, db, chain, h);
    assert IsCanonicalChain(start, db, chain) ==> n - start < |chain| && InPlace(start, db, chain, n - start);
  }

  /** Rewinding to a block of the chain keeps the invariant on the shortened chain, and the replay of the logs
      up to that block never fails. */
  lemma RewindKeepsConsistency(m: Market, start: nat, db: Database, chain: seq<Block>, replay: seq<RawLog>,
                               ancestor: Option<Block>)
    requires Consistent(m, start, db, chain, replay) && OnChain(start, chain, ancestor)
    ensures var logs := KeptLogs(replay, ancestor);
            && ApplyAll(m, CreateInitialState(), logs).Success?
            && Consistent(m, start, RewindTo(db, ancestor, ApplyAll(m, CreateInitialState(), logs).value),
                          chain[..KeptBlocks(start, ancestor)], logs)
  {
    hide ApplyAll, IsCanonicalChain, StrictlyOrdered, RewindTo;
    var logs := KeptLogs(replay, ancestor);
    if ancestor.Some? {
      ThroughIsPrefix(replay, ancestor.value.number);
    }
    assert replay == logs + replay[|logs|..];
    ApplyAllConcat(m, CreateInitialState(), logs, replay[|logs|..]);
    var state := ApplyAll(m, CreateInitialState(), logs).value;
    RewindChain(start, db, chain, ancestor, state);
    RewindReplay(start, db, chain, replay, ancestor, state);
    RewoundState(db, ancestor, state);
  }

  /** The rewind target is a block of the chain, or nothing. */
  ghost predicate OnChain(start: nat, chain: seq<Block>, ancestor: Option<Block>) {
    ancestor.Some? ==>
      start <= ancestor.value.number < start + |chain| && chain[ancestor.value.number - start] == ancestor.value
  }

  ghost function KeptBlocks(start: nat, ancestor: Option<Block>): nat
    requires ancestor.Some? ==> start <= ancestor.value.number
  {
    if ancestor.Some? then ancestor.value.number - start + 1 else 0
  }

  ghost function KeptLogs(replay: seq<RawLog>, ancestor: Option<Block>): seq<RawLog> {
    if ancestor.Some? then Through(replay, ancestor.value.number) else []
  }

  lemma RewoundState(db: Database, ancestor: Option<Block>, state: DerivedState)
    ensures RewindTo(db, ancestor, state).derived == state
  {
  }

  lemma RewindChain(start: nat, db: Database, chain: seq<Block>, ancestor: Option<Block>, state: DerivedState)
    requires IsCanonicalChain(start, db, chain) && OnChain(start, chain, ancestor)
    ensures IsCanonicalChain(start, RewindTo(db, ancestor, state), chain[..KeptBlocks(start, ancestor)])
  {
    var chain' := chain[..KeptBlocks(start, ancestor)];
    var db' := RewindTo(db, ancestor, state);
    forall i | 0 <= i < |chain'|
      ensures InPlace(start, db', chain', i)
    {
      assert InPlace(start, db, chain, i);
    }
    forall h | h in db'.blocks
      ensures Filed(start, db', chain', h)
    {
      assert Filed(start, db, chain, h);
    }
  }

  lemma RewindReplay(start: nat, db: Database, chain: seq<Block>, replay: seq<RawLog>, ancestor: Option<Block>,
                     state: DerivedState)
    requires IsReplay(start, db, chain, replay) && OnChain(start, chain, ancestor)
    ensures IsReplay(start, RewindTo(db, ancestor, state), chain[..KeptBlocks(start, ancestor)],
                     KeptLogs(replay, ancestor))
  {
    var chain' := chain[..KeptBlocks(start, ancestor)];
    var logs := KeptLogs(replay, ancestor);
    var db' := RewindTo(db, ancestor, state);
    assert StrictlyOrdered(logs) by {
      if ancestor.Some? {
        ThroughIsPrefix(replay, ancestor.value.number);
      }
    }
    hide StrictlyOrdered;
    forall l
      ensures l in logs <==> l in replay && Kept(ancestor, l.blockNumber)
    {
      if ancestor.Some? {
        ThroughMembers(replay, ancestor.value.number, l);
      }
    }
    forall l | l in logs
      ensures Replayed(start, db', chain', l)
    {
      assert Replayed(start, db, chain, l);
    }
  }

  // History ------------------------------------------------------------------------------------

  /** Every stored block and log is still there, and at most its canonical flag has changed, but for the row of one
      hash that was written anew. */
  ghost predicate Remembers(db: Database, db': Database, written: Option<Hash>) {
    && (forall h :: h in db.blocks ==>
          && h in db'.blocks
          && (written != Some(h) ==>
                db'.blocks[h] == db.blocks[h] || db'.blocks[h] == db.blocks[h].(canonical := false)))
    && (forall k :: k in db.logs ==>
          && k in db'.logs
          && (written != Some(k.blockHash) ==>
                db'.logs[k] == db.logs[k] || db'.logs[k] == db.logs[k].(canonical := false)))
  }

  /** Rewinding orphans rows and deletes none. */
  lemma RewindRemembers(db: Database, ancestor: Option<Block>, state: DerivedState)
    ensures Remembers(db, RewindTo(db, ancestor, state), None)
    ensures RewindTo(db, ancestor, state).blocks.Keys == db.blocks.Keys
    ensures RewindTo(db, ancestor, state).logs.Keys == db.logs.Keys
  {
  }

  /** A commit writes the rows of its block and leaves all others as they were. */
  lemma CommitRemembers(db: Database, block: Block, logs: seq<RawLog>, state: DerivedState)
    requires CommitBlock(db, block, logs, state).Success? && forall l :: l in logs ==> l.blockHash == block.hash
    ensures var db' := CommitBlock(db, block, logs, state).value;
            && Remembers(db, db', Some(block.hash))
            && (forall k :: k in db.logs && k.blockHash != block.hash ==> db'.logs[k] == db.logs[k])
            && (forall h :: h in db.blocks && h != block.hash ==> db'.blocks[h] == db.blocks[h])
  {
    forall k | k in db.logs
      ensures k in UpsertLogs(db.logs, logs)
      ensures k.blockHash != block.hash ==> UpsertLogs(db.logs, logs)[k] == db.logs[k]
    {
      UpsertKeeps(db.logs, logs, k);
    }
  }

  lemma {:induction false} UpsertKeeps(rows: map<LogKey, RawLog>, logs: seq<RawLog>, k: LogKey)
    requires k in rows
    ensures k in UpsertLogs(rows, logs)
    ensures (forall l :: l in logs ==> KeyOf(l) != k) ==> UpsertLogs(rows, logs)[k] == rows[k]
  {
    if logs != [] {
      UpsertKeeps(rows, logs[..|logs| - 1], k);
    }
  }
}
