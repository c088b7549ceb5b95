/** The transaction manager as it runs: jobs changed field by field, saved and broadcast, in a process that may
    die before any write (TxManager.cpp, PostgresTransactionStore.cpp). */
module TxManager {
  import opened Results
  import opened FixedPoint
  import opened Transactions
  import opened TxJobs
  import opened TxSafety

  /** The account's active jobs among these, in order. */
  function ActiveJobs(rows: map<JobId, TxJob>, ids: seq<JobId>, account: Account): (r: seq<(JobId, TxJob)>)
    requires forall i :: 0 <= i < |ids| ==> ids[i] in rows
  {
    if ids == [] then [] else
    var n := |ids| - 1;
    var job := rows[ids[n]];
    ActiveJobs(rows, ids[..n], account)
    + if job.account == account && IsActive(job.status) then [(ids[n], job)] else []
  }

  /** From a position on, the list holds the account's active rows as they are, each job once. */
  ghost predicate AreActive(rows: map<JobId, TxJob>, account: Account, jobs: seq<(JobId, TxJob)>, from: nat) {
    && (forall i :: from <= i < |jobs| ==>
          && jobs[i].0 in rows && rows[jobs[i].0] == jobs[i].1
          && jobs[i].1.account == account && IsActive(jobs[i].1.status))
    && (forall i, j :: 0 <= i < j < |jobs| ==> jobs[i].0 != jobs[j].0)
  }

  lemma {:induction false} ActiveJobFrom(rows: map<JobId, TxJob>, ids: seq<JobId>, account: Account, i: nat)
    requires forall k :: 0 <= k < |ids| ==> ids[k] in rows
    requires i < |ActiveJobs(rows, ids, account)|
    ensures var job := ActiveJobs(rows, ids, account)[i];
            && job.0 in ids && rows[job.0] == job.1 && job.1.account == account && IsActive(job.1.status)
  {
    var n := |ids| - 1;
    if i < |ActiveJobs(rows, ids[..n], account)| {
      ActiveJobFrom(rows, ids[..n], account, i);
    }
  }

  lemma {:induction false} ActiveJobsAreActive(rows: map<JobId, TxJob>, ids: seq<JobId>, account: Account)
    requires forall k :: 0 <= k < |ids| ==> ids[k] in rows
    requires forall i, j :: 0 <= i < j < |ids| ==> ids[i] != ids[j]
    ensures AreActive(rows, account, ActiveJobs(rows, ids, account), 0)
  {
    if ids != [] {
      var n := |ids| - 1;
      var front := ActiveJobs(rows, ids[..n], account);
      ActiveJobsAreActive(rows, ids[..n], account);
      forall i | 0 <= i < |front| ensures front[i].0 != ids[n] {
        ActiveJobFrom(rows, ids[..n], account, i);
      }
    }
  }

  lemma {:induction false} ActiveJobIsListed(rows: map<JobId, TxJob>, ids: seq<JobId>, account: Account, id: JobId)
    requires forall k :: 0 <= k < |ids| ==> ids[k] in rows
    requires id in ids && rows[id].account == account && IsActive(rows[id].status)
    ensures (id, rows[id]) in ActiveJobs(rows, ids, account)
  {
    var n := |ids| - 1;
    if ids[n] != id {
      assert id in ids[..n];
      ActiveJobIsListed(rows, ids[..n], account, id);
    }
  }

  lemma ActiveJobAt(rows: map<JobId, TxJob>, account: Account, jobs: seq<(JobId, TxJob)>, i: nat)
    requires i < |jobs| && AreActive(rows, account, jobs, i)
    ensures jobs[i].0 in rows && rows[jobs[i].0] == jobs[i].1 && jobs[i].1.account == account
    ensures IsActive(jobs[i].1.status)
  {
  }

  /** Processing one job leaves the rows of those after it as they were loaded. */
  lemma LaterJobsStay(rows: map<JobId, TxJob>, rows': map<JobId, TxJob>, account: Account, jobs: seq<(JobId, TxJob)>,
                      i: nat)
    requires i < |jobs| && AreActive(rows, account, jobs, i) && rows'.Keys == rows.Keys
    requires forall id :: id in rows && id != jobs[i].0 ==> rows'[id] == rows[id]
    ensures AreActive(rows', account, jobs, i + 1)
  {
  }

  /** The `tx_jobs` table, with the ids in creation order. */
  class TransactionStore {
    var rows: map<JobId, TxJob>
    var order: seq<JobId>

    ghost predicate Valid()
      reads this
    {
      && (forall i :: 0 <= i < |order| ==> order[i] in rows)
      && (forall i, j :: 0 <= i < j < |order| ==> order[i] != order[j])
      && (forall id :: id in rows ==> id in order)
    }

    constructor ()
      ensures Valid() && rows == map[]
    {
      rows, order := map[], [];
    }

    /** Inserting an existing id does nothing. */
    method Insert(id: JobId, account: Account, call: Call) returns (inserted: bool)
      requires Valid()
      modifies this
      ensures Valid()
      ensures inserted <==> id !in old(rows)
      ensures forall configs, sent ::
                Book(rows, sent) == Next(configs, Book(old(rows), sent), Action.Insert(id, account, call))
    {
      inserted := id !in rows;
      if inserted {
        rows, order := rows[id := Queued(account, call)], order + [id];
      }
    }

    /** The account's pending, submitted and included jobs, oldest first. */
    method LoadActive(account: Account) returns (jobs: seq<(JobId, TxJob)>)
      requires Valid()
      ensures jobs == ActiveJobs(rows, order, account) && AreActive(rows, account, jobs, 0)
      ensures forall id :: id in rows && rows[id].account == account && IsActive(rows[id].status) ==>
                (id, rows[id]) in jobs
    {
      hide AreActive;
      jobs := [];
      for k := 0 to |order|
        invariant jobs == ActiveJobs(rows, order[..k], account)
      {
        assert order[..k + 1][..k] == order[..k];
        var job := rows[order[k]];
        if job.account == account && IsActive(job.status) {
          jobs := jobs + [(order[k], job)];
        }
      }
      assert order[..|order|] == order;
      ActiveJobsAreActive(rows, order, account);
      forall id | id in rows && rows[id].account == account && IsActive(rows[id].status)
        ensures (id, rows[id]) in jobs
      {
        ActiveJobIsListed(rows, order, account, id);
      }
    }

    /** The greatest nonce held by a job of the account that has neither failed nor been reorganised away. */
    method LoadHighestNonce(account: Account) returns (highest: Option<Word>)
      requires Valid()
      ensures IsHighest(rows, account, highest)
    {
      highest := None;
      for k := 0 to |order|
        invariant forall i :: 0 <= i < k && rows[order[i]].account == account && HoldsNonce(rows[order[i]]) ==>
                    highest.Some? && rows[order[i]].nonce.value <= highest.value
        invariant highest.Some? ==>
                    exists id :: && id in rows && rows[id].account == account
                                 && HoldsNonce(rows[id]) && rows[id].nonce == highest
      {
        var job := rows[order[k]];
        if job.account == account && HoldsNonce(job) && (highest.None? || job.nonce.value > highest.value) {
          highest := job.nonce;
        }
      }
    }

    method Save(id: JobId, job: TxJob)
      requires Valid() && id in rows
      modifies this`rows
      ensures Valid()
      ensures forall sent :: Book(rows, sent) == Apply(Book(old(rows), sent), id, Effect.Save(job))
    {
      rows := rows[id := job.(account := rows[id].account, call := rows[id].call)];
    }
  }

  /** What a run reports. */
  datatype RunResult = RunResult(active: nat, included: nat, finalized: nat, reorged: nat, failed: nat,
                                 confirmationBlocks: seq<nat>)

  const NOTHING_DONE := RunResult(0, 0, 0, 0, 0, [])

  /** Adds one processed job to the report. */
  function Counted(r: RunResult, previous: TxStatus, job: TxJob): RunResult {
    var a := if job.status.Pending? || job.status.Submitted? then r.(active := r.active + 1) else r;
    if previous == job.status then a else
    match job.status
    case Included => a.(included := a.included + 1)
    case Finalized =>
      a.(finalized := a.finalized + 1,
         confirmationBlocks :=
           if job.submittedBlockNumber.Some? && job.includedBlockNumber.Some? then
             a.confirmationBlocks
             + [BlocksToConfirm(job.submittedBlockNumber.value, job.includedBlockNumber.value)]
           else a.confirmationBlocks)
    case Reorged => a.(reorged := a.reorged + 1)
    case Failed => a.(failed := a.failed + 1)
    case _ => a
  }

  /** In 64-bit arithmetic. */
  function BlocksToConfirm(submitted: nat, included: nat): nat {
    (included - submitted + 1) % UINT64_MODULUS
  }

  function Tally(jobs: seq<(JobId, TxJob)>, processed: seq<TxJob>): RunResult
    requires |processed| <= |jobs|
  {
    if processed == [] then NOTHING_DONE else
    var n := |processed| - 1;
    Counted(Tally(jobs, processed[..n]), jobs[n].1.status, processed[n])
  }

  method Count(r: RunResult, previous: TxStatus, job: TxJob) returns (report: RunResult)
    ensures report == Counted(r, previous, job)
  {
    report := r;
    if job.status.Pending? || job.status.Submitted? {
      report := report.(active := report.active + 1);
    }
    if previous != job.status {
      if job.status.Included? {
        report := report.(included := report.included + 1);
      } else if job.status.Finalized? {
        report := report.(finalized := report.finalized + 1);
        if job.submittedBlockNumber.Some? && job.includedBlockNumber.Some? {
          var blocks := BlocksToConfirm(job.submittedBlockNumber.value, job.includedBlockNumber.value);
          report := report.(confirmationBlocks := report.confirmationBlocks + [blocks]);
        }
      } else if job.status.Reorged? {
        report := report.(reorged := report.reorged + 1);
      } else if job.status.Failed? {
        report := report.(failed := report.failed + 1);
      }
    }
  }

  class TxManager {
    const store: TransactionStore
    const account: Account
    const config: Config
    /** How many more writes and broadcasts complete before the process dies; the code cannot see it. */
    var lifetime: nat
    ghost var sent: map<JobId, seq<Sent>>

    constructor (store: TransactionStore, account: Account, config: Config, lifetime: nat,
                 ghost sent: map<JobId, seq<Sent>>)
      requires config.confirmationDepth > 0
      ensures this.store == store && this.account == account && this.config == config
      ensures this.lifetime == lifetime && this.sent == sent
    {
      this.store, this.account, this.config := store, account, config;
      this.lifetime, this.sent := lifetime, sent;
    }

    ghost function Table(): Book
      reads this, store
    {
      Book(store.rows, sent)
    }

    /** The first effects, as many as the process lived to make, are what happened since `before`. */
    ghost predicate Performed(before: Book, life: nat, id: JobId, effects: seq<Effect>)
      requires id in before.rows
      reads this, store
    {
      var k := Min(life, |effects|);
      Table() == ApplyAll(before, id, effects[..k]) && lifetime == life - k
    }

    lemma Died(before: Book, life: nat, id: JobId, effects: seq<Effect>, all: seq<Effect>)
      requires id in before.rows && Performed(before, life, id, effects) && life <= |effects| && effects <= all
      ensures Performed(before, life, id, all)
    {
      hide ApplyAll;
      assert all[..life] == effects[..life];
    }

    static lemma OneMore(before: Book, id: JobId, effects: seq<Effect>, effect: Effect)
      requires id in before.rows
      ensures ApplyAll(before, id, effects + [effect]) == Apply(ApplyAll(before, id, effects), id, effect)
    {
      assert (effects + [effect])[..|effects|] == effects;
    }

    lemma NothingYet(id: JobId)
      requires id in store.rows
      ensures Performed(Table(), lifetime, id, [])
    {
    }

    /** Writes a row, unless the process dies first. */
    method Save(id: JobId, job: TxJob, ghost before: Book, ghost life: nat, ghost effects: seq<Effect>)
      returns (alive: bool)
      requires store.Valid() && id in before.rows && id in store.rows
      requires Performed(before, life, id, effects) && life >= |effects|
      modifies this`lifetime, store`rows
      ensures store.Valid() && store.rows.Keys == old(store.rows.Keys)
      ensures Performed(before, life, id, effects + [Effect.Save(job)])
      ensures alive <==> life > |effects|
    {
      hide ApplyAll;
      ghost var all := effects + [Effect.Save(job)];
      assert effects[..|effects|] == effects && all[..|effects|] == effects && all[..|all|] == all;
      OneMore(before, id, effects, Effect.Save(job));
      alive := lifetime > 0;
      if alive {
        ghost var table := Table();
        lifetime := lifetime - 1;
        store.Save(id, job);
        assert Table() == Apply(table, id, Effect.Save(job));
      }
    }

    /** Hands a transaction to the node, unless the process dies first. */
    method Send(id: JobId, tx: Eip1559Transaction, ghost before: Book, ghost life: nat, ghost effects: seq<Effect>)
      returns (alive: bool)
      requires store.Valid() && id in before.rows && id in store.rows
      requires Performed(before, life, id, effects) && life >= |effects|
      modifies this`lifetime, this`sent
      ensures Performed(before, life, id, effects + [Effect.Send(tx)])
      ensures alive <==> life > |effects|
    {
      hide ApplyAll;
      ghost var all := effects + [Effect.Send(tx)];
      assert effects[..|effects|] == effects && all[..|effects|] == effects && all[..|all|] == all;
      OneMore(before, id, effects, Effect.Send(tx));
      alive := lifetime > 0;
      if alive {
        lifetime := lifetime - 1;
        sent := Apply(Table(), id, Effect.Send(tx)).sent;
      }
    }

    method AllocateNonce(rpcNonce: Word, ghost highest: Option<Word>) returns (nonce: Option<Word>)
      requires store.Valid() && IsHighest(store.rows, account, highest)
      ensures nonce == TxJobs.AllocateNonce(highest, rpcNonce)
    {
      var storedNonce := store.LoadHighestNonce(account);
      HighestIsUnique(store.rows, account, storedNonce, highest);
      if storedNonce.None? {
        return Some(rpcNonce);
      }
      if storedNonce.value == MAX_UINT256 {
        return None;
      }
      var nextStored: Word := storedNonce.value + 1;
      nonce := Some(if nextStored > rpcNonce then nextStored else rpcNonce);
    }

    /** The try block before any effect: the job gets its nonce and gas limit. */
    method NonceAndGas(row: TxJob, retry: bool, rpc: Replies, ghost highest: Option<Word>)
      returns (job: TxJob, stop: Option<Stop>)
      requires store.Valid() && IsHighest(store.rows, account, highest)
      ensures Progress(job, [], false, stop) == WithGas(WithNonce(Started(row, retry), highest, rpc), rpc)
    {
      hide IsHighest, TxJobs.AllocateNonce;
      job, stop := row, None;
      if retry {
        job := job.(retryCount := job.retryCount + 1);
      }
      if job.nonce.None? {
        if !rpc.pendingNonce.Answer? {
          stop := Some(if rpc.pendingNonce.Raised? then Caught(rpc.pendingNonce.kind, rpc.pendingNonce.text)
                       else Uncaught);
          return;
        }
        var nonce := AllocateNonce(rpc.pendingNonce.value, highest);
        if nonce.None? {
          stop := Some(Uncaught);
          return;
        }
        job := job.(nonce := nonce);
      }
      if job.gasLimit.None? {
        if !rpc.gas.Answer? {
          stop := Some(if rpc.gas.Raised? then Caught(rpc.gas.kind, rpc.gas.text) else Uncaught);
          return;
        }
        job := job.(gasLimit := Some(rpc.gas.value));
      }
    }

    /** The try block up to the fees. */
    method Prepare(id: JobId, row: TxJob, retry: bool, rpc: Replies, ghost highest: Option<Word>)
      returns (job: TxJob, stop: Option<Stop>, alive: bool)
      requires store.Valid() && id in store.rows && IsHighest(store.rows, account, highest)
      modifies this`lifetime, store`rows
      ensures store.Valid() && store.rows.Keys == old(store.rows.Keys)
      ensures var p := Prepared(row, retry, highest, rpc);
              && Performed(old(Table()), old(lifetime), id, p.effects)
              && (alive <==> old(lifetime) >= |p.effects|)
              && (alive ==> job == p.job && stop == p.stop)
    {
      hide IsHighest, WithNonce, WithGas, BumpFee, Performed;
      NothingYet(id);
      alive := true;
      job, stop := NonceAndGas(row, retry, rpc, highest);
      if stop.Some? {
        return;
      }
      if retry && job.maxPriorityFeePerGas.Some? && job.maxFeePerGas.Some? {
        job := job.(status := Replaced);
        alive := Save(id, job, old(Table()), old(lifetime), []);
        var priority, fee := BumpFee(job.maxPriorityFeePerGas.value), BumpFee(job.maxFeePerGas.value);
        if priority.Failure? || fee.Failure? {
          stop := Some(Uncaught);
          return;
        }
        job := job.(maxPriorityFeePerGas := Some(priority.value), maxFeePerGas := Some(fee.value));
      } else {
        if !rpc.fees.Answer? {
          stop := Some(if rpc.fees.Raised? then Caught(rpc.fees.kind, rpc.fees.text) else Uncaught);
          return;
        }
        job := job.(maxPriorityFeePerGas := Some(rpc.fees.value.maxPriorityFeePerGas),
                    maxFeePerGas := Some(rpc.fees.value.maxFeePerGas));
      }
    }

    /** The whole try block: prepare, sign, save, broadcast, save. */
    method Attempt(id: JobId, row: TxJob, retry: bool, rpc: Replies, ghost highest: Option<Word>)
      returns (job: TxJob, broadcastAttempted: bool, stop: Option<Stop>, alive: bool)
      requires store.Valid() && id in store.rows && IsHighest(store.rows, account, highest)
      modifies this`lifetime, this`sent, store`rows
      ensures store.Valid() && store.rows.Keys == old(store.rows.Keys)
      ensures var p := Attempted(row, retry, highest, rpc);
              && Performed(old(Table()), old(lifetime), id, p.effects)
              && (alive <==> old(lifetime) >= |p.effects|)
              && (alive ==> job == p.job && stop == p.stop && broadcastAttempted == p.broadcastAttempted)
    {
      hide ApplyAll, IsHighest, Prepared, Performed;
      ghost var before, life := Table(), lifetime;
      ghost var p := Prepared(row, retry, highest, rpc);
      NotYetBroadcast(row, retry, highest, rpc);
      broadcastAttempted := false;
      job, stop, alive := Prepare(id, row, retry, rpc, highest);
      if !alive {
        Died(before, life, id, p.effects, Attempted(row, retry, highest, rpc).effects);
        return;
      }
      if stop.Some? {
        return;
      }
      job := job.(rawTransaction := Some(TransactionOf(job)));
      job := job.(status := Submitted);
      if !rpc.submitHead.Answer? {
        stop := Some(if rpc.submitHead.Raised? then Caught(rpc.submitHead.kind, rpc.submitHead.text) else Uncaught);
        return;
      }
      job := job.(submittedBlockNumber := Some(rpc.submitHead.value));
      job := job.(transactionHash := Some(rpc.signedHash));
      job := job.(includedBlockNumber := None, includedBlockHash := None, confirmationCount := 0, errorMessage := "");
      ghost var signed := Signed(p, rpc);
      alive := Save(id, job, before, life, p.effects);
      if !alive {
        Died(before, life, id, signed.effects, Attempted(row, retry, highest, rpc).effects);
        return;
      }
      broadcastAttempted := true;
      alive := Send(id, job.rawTransaction.value, before, life, signed.effects);
      ghost var effects := signed.effects + [Effect.Send(job.rawTransaction.value)];
      if !alive {
        Died(before, life, id, effects, Attempted(row, retry, highest, rpc).effects);
        return;
      }
      if !rpc.send.Answer? {
        stop := Some(if rpc.send.Raised? then Caught(rpc.send.kind, rpc.send.text) else Uncaught);
        return;
      }
      job := job.(transactionHash := Some(rpc.send.value));
      alive := Save(id, job, before, life, effects);
    }

    /** Submits a job; on return it is alive unless the process died or an exception other than the node's escaped. */
    method Submit(id: JobId, row: TxJob, retry: bool, rpc: Replies, ghost highest: Option<Word>)
      returns (job: TxJob, alive: bool)
      requires store.Valid() && id in store.rows && IsHighest(store.rows, account, highest)
      modifies this`lifetime, this`sent, store`rows
      ensures store.Valid() && store.rows.Keys == old(store.rows.Keys)
      ensures var p := TxJobs.Submit(config, row, retry, highest, rpc);
              && Performed(old(Table()), old(lifetime), id, p.effects)
              && (alive <==> old(lifetime) >= |p.effects| && p.stop.None?)
              && (alive ==> job == p.job)
    {
      hide ApplyAll, IsHighest, Attempted, Performed;
      ghost var before, life := Table(), lifetime;
      NothingYet(id);
      job := row;
      if !IsApproved(config, job.call) {
        job := job.(status := Failed, errorMessage := REJECTED);
        alive := Save(id, job, before, life, []);
        return;
      }
      if retry && job.retryCount >= config.maximumRetries {
        job := job.(status := Failed, errorMessage := RETRY_LIMIT);
        alive := Save(id, job, before, life, []);
        return;
      }
      ghost var p := Attempted(row, retry, highest, rpc);
      var broadcastAttempted, stop;
      job, broadcastAttempted, stop, alive := Attempt(id, row, retry, rpc, highest);
      if !alive {
        Died(before, life, id, p.effects, TxJobs.Submit(config, row, retry, highest, rpc).effects);
        return;
      }
      if stop.None? {
        return;
      }
      if stop.value.Uncaught? {
        alive := false;
        return;
      }
      job := job.(errorMessage := stop.value.text);
      if broadcastAttempted && (stop.value.kind.Transport? || stop.value.kind.Http?) {
        job := job.(status := Submitted);
      } else {
        job := job.(status := if job.retryCount >= config.maximumRetries then Failed else Pending);
      }
      alive := Save(id, job, before, life, p.effects);
    }

    /** Follows a submitted job to its receipt, or an included one to its confirmation. */
    method Poll(id: JobId, row: TxJob, rpc: Replies, ghost highest: Option<Word>) returns (job: TxJob, alive: bool)
      requires store.Valid() && id in store.rows && IsHighest(store.rows, account, highest) && IsReadable(row)
      modifies this`lifetime, this`sent, store`rows
      ensures store.Valid() && store.rows.Keys == old(store.rows.Keys)
      ensures var p := TxJobs.Poll(config, row, highest, rpc);
              && Performed(old(Table()), old(lifetime), id, p.effects)
              && (alive <==> old(lifetime) >= |p.effects| && p.stop.None?)
              && (alive ==> job == p.job)
    {
      hide ApplyAll, IsHighest, TxJobs.Submit, Performed;
      ghost var before, life := Table(), lifetime;
      NothingYet(id);
      job, alive := row, true;
      if job.status.Submitted? {
        if !rpc.receipt.Answer? {
          alive := false;
          return;
        }
        if rpc.receipt.value.Some? {
          var receipt := rpc.receipt.value.value;
          if receipt.blockNumber >= UINT64_MODULUS {
            alive := false;
            return;
          }
          job := job.(includedBlockNumber := Some(receipt.blockNumber));
          job := job.(includedBlockHash := Some(receipt.blockHash));
          job := job.(status := if receipt.succeeded then Included else Failed);
          if !receipt.succeeded {
            job := job.(errorMessage := REVERTED);
          }
          alive := Save(id, job, before, life, []);
          return;
        }
        if !rpc.pollHead.Answer? {
          alive := false;
          return;
        }
        var head := rpc.pollHead.value;
        if job.submittedBlockNumber.Some?
           && head >= (job.submittedBlockNumber.value + config.replacementAfterBlocks) % UINT64_MODULUS {
          if job.retryCount >= config.maximumRetries {
            job := job.(status := Failed, errorMessage := NOT_INCLUDED);
            alive := Save(id, job, before, life, []);
          } else {
            job, alive := Submit(id, row, true, rpc, highest);
          }
        }
        return;
      }
      if !job.status.Included? {
        return;
      }
      if !rpc.block.Answer? {
        alive := false;
        return;
      }
      if rpc.block.value.None? || rpc.block.value != job.includedBlockHash {
        job := job.(status := Reorged, errorMessage := NOT_CANONICAL);
        alive := Save(id, job, before, life, []);
        return;
      }
      if !rpc.pollHead.Answer? {
        alive := false;
        return;
      }
      job := job.(confirmationCount := Confirmations(job.includedBlockNumber.value, rpc.pollHead.value));
      if job.confirmationCount >= config.confirmationDepth {
        job := job.(status := Finalized);
      }
      alive := Save(id, job, before, life, []);
    }

    /** The table's rows, apart from the one being processed, are left alone. */
    static lemma {:induction false} OtherRowsStay(before: Book, id: JobId, effects: seq<Effect>)
      requires id in before.rows
      ensures forall other :: other in before.rows && other != id ==>
                ApplyAll(before, id, effects).rows[other] == before.rows[other]
    {
      if effects != [] {
        OtherRowsStay(before, id, effects[..|effects| - 1]);
      }
    }

    /** One job of a run: exactly one action of the protocol. */
    method ProcessOne(id: JobId, row: TxJob, rpc: Replies) returns (job: TxJob, alive: bool, ghost action: Action)
      requires store.Valid() && id in store.rows && store.rows[id] == row && row.account == account
      requires IsActive(row.status) && IsReadable(row)
      modifies this`lifetime, this`sent, store`rows
      ensures store.Valid() && store.rows.Keys == old(store.rows.Keys)
      ensures forall other :: other in old(store.rows) && other != id ==> store.rows[other] == old(store.rows)[other]
      ensures action.Process? && action.id == id && action.rpc == rpc && Enabled(old(Table()), action)
      ensures Table() == Next(map[account := config], old(Table()), action)
      ensures alive ==> job == ProcessJob(config, row, action.highest, rpc).job
      ensures alive <==> Completes(config, row, action)
      ensures lifetime <= old(lifetime)
    {
      hide ApplyAll, IsHighest, TxJobs.Submit, TxJobs.Poll;
      ghost var highest: Option<Word>;
      var stored := store.LoadHighestNonce(account);
      highest := stored;
      ghost var before, life := Table(), lifetime;
      action := Process(id, highest, rpc, life);
      ghost var effects := ProcessJob(config, row, highest, rpc).effects;
      if row.status.Pending? {
        job, alive := Submit(id, row, row.errorMessage != "", rpc, highest);
      } else {
        job, alive := Poll(id, row, rpc, highest);
      }
      OtherRowsStay(before, id, effects[..Min(life, |effects|)]);
    }

    /** Processes the account's active jobs in creation order. The run is a run of the protocol: one action per
        job, each on the row as it was loaded. It reports the outcomes of all jobs, unless the process died or an
        exception that is not the node's escaped from one of them, which then is the last it touched. */
    method RunOnce(rpc: JobId -> Replies)
      returns (result: Option<RunResult>, ghost processed: seq<TxJob>, ghost actions: seq<Action>)
      requires store.Valid() && NonceSafe(Table())
      modifies this`lifetime, this`sent, store`rows
      ensures store.Valid() && NonceSafe(Table())
      ensures AllEnabled(map[account := config], old(Table()), actions)
      ensures Table() == Run(map[account := config], old(Table()), actions)
      ensures var jobs := ActiveJobs(old(store.rows), old(store.order), account);
              && |processed| <= |actions| <= |jobs|
              && (forall i :: 0 <= i < |actions| ==> Takes(actions[i], jobs[i], rpc(jobs[i].0)))
              && (forall i :: 0 <= i < |processed| ==> Finishes(config, actions[i], jobs[i].1, processed[i]))
              && match result
                 case Some(report) => |processed| == |jobs| && report == Tally(jobs, processed)
                 case None => |actions| == |processed| + 1 && Dies(config, actions[|processed|], jobs[|processed|].1)
    {
      hide NonceSafe, Next, IsActive, ProcessJob, Enabled, Run, AllEnabled, Counted, TransactionStore.Valid, ActiveJobs,
           Completes, Takes, Finishes, Dies, AreActive;
      ghost var configs := map[account := config];
      var jobs := store.LoadActive(account);
      processed, actions := [], [];
      NoActions(configs, Table());
      var report := NOTHING_DONE;
      var i := 0;
      while i < |jobs|
        invariant 0 <= i <= |jobs| && |actions| == |processed| == i
        invariant store.Valid() && NonceSafe(Table()) && store.rows.Keys == old(store.rows.Keys)
        invariant AreActive(store.rows, account, jobs, i)
        invariant AllEnabled(configs, old(Table()), actions) && Table() == Run(configs, old(Table()), actions)
        invariant forall j :: 0 <= j < i ==> Takes(actions[j], jobs[j], rpc(jobs[j].0))
        invariant forall j :: 0 <= j < i ==> Finishes(config, actions[j], jobs[j].1, processed[j])
        invariant report == Tally(jobs, processed)
      {
        var id, row := jobs[i].0, jobs[i].1;
        ActiveJobAt(store.rows, account, jobs, i);
        SafeRows(Table(), id);
        ghost var table := Table();
        var job, alive;
        ghost var action;
        job, alive, action := ProcessOne(id, row, rpc(id));
        LaterJobsStay(table.rows, store.rows, account, jobs, i);
        NextKeepsNonces(configs, table, action);
        ExtendRun(configs, old(Table()), actions, action);
        OutcomeOf(config, action, jobs[i], rpc(id), alive, job);
        actions := actions + [action];
        if !alive {
          return None, processed, actions;
        }
        assert (processed + [job])[..i] == processed;
        processed := processed + [job];
        report := Count(report, row.status, job);
        i := i + 1;
      }
      return Some(report), processed, actions;
    }
  }

  /** The process lived through all effects of the action, and no exception escaped. */
  ghost predicate Completes(config: Config, row: TxJob, action: Action)
    requires action.Process? && IsReadable(row)
  {
    var p := ProcessJob(config, row, action.highest, action.rpc);
    |p.effects| <= action.survived && p.stop.None?
  }

  /** The action processes this job under these answers. */
  ghost predicate Takes(action: Action, job: (JobId, TxJob), rpc: Replies) {
    action.Process? && action.id == job.0 && action.rpc == rpc
  }

  /** Processing the loaded row came to its end, with this job in memory. */
  ghost predicate Finishes(config: Config, action: Action, row: TxJob, after: TxJob) {
    && action.Process? && IsReadable(row) && Completes(config, row, action)
    && after == ProcessJob(config, row, action.highest, action.rpc).job
  }

  /** Processing the loaded row was cut short. */
  ghost predicate Dies(config: Config, action: Action, row: TxJob) {
    action.Process? && IsReadable(row) && !Completes(config, row, action)
  }

  lemma OutcomeOf(config: Config, action: Action, job: (JobId, TxJob), rpc: Replies, alive: bool, after: TxJob)
    requires action.Process? && action.id == job.0 && action.rpc == rpc && IsReadable(job.1)
    requires alive <==> Completes(config, job.1, action)
    requires alive ==> after == ProcessJob(config, job.1, action.highest, rpc).job
    ensures Takes(action, job, rpc)
    ensures if alive then Finishes(config, action, job.1, after) else Dies(config, action, job.1)
  {
    hide ProcessJob, Completes;
  }

  lemma SafeRows(s: Book, id: JobId)
    requires NonceSafe(s) && id in s.rows
    ensures IsReadable(s.rows[id])
  {
  }
}
