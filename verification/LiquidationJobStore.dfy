/** The liquidation job store as it runs: each method is one transaction over the tables, rolled back on failure
    (LiquidationJobs.cpp). */
module LiquidationJobStore {
  import opened Results
  import opened LiquidationJobs
  import Tx = TxJobs

  datatype ReconcileResult = ReconcileResult(completed: nat, failed: nat, reorged: nat)

  /** The creation order lists every job once. */
  ghost predicate Lists(order: seq<EventId>, jobs: map<EventId, JobRow>) {
    && (forall i :: 0 <= i < |order| ==> order[i] in jobs)
    && Distinct(order)
    && Covered(order, jobs)
  }

  ghost predicate Distinct(order: seq<EventId>) {
    forall i, j :: 0 <= i < j < |order| ==> order[i] != order[j]
  }

  ghost predicate Covered(order: seq<EventId>, jobs: map<EventId, JobRow>) {
    forall id :: id in jobs ==> id in order
  }

  /** The first `n` jobs in order are as in `after`, the others as in `before`. */
  ghost predicate DoneThrough(order: seq<EventId>, n: nat, rows: map<EventId, JobRow>, before: map<EventId, JobRow>,
                              after: map<EventId, JobRow>)
    requires n <= |order| && forall i :: 0 <= i < |order| ==> order[i] in before
  {
    && rows.Keys == before.Keys == after.Keys
    && (forall k :: 0 <= k < n ==> rows[order[k]] == after[order[k]])
    && (forall k :: n <= k < |order| ==> rows[order[k]] == before[order[k]])
  }

  lemma DoneOneMore(order: seq<EventId>, n: nat, rows: map<EventId, JobRow>, before: map<EventId, JobRow>,
                    after: map<EventId, JobRow>, rows': map<EventId, JobRow>)
    requires Lists(order, before) && n < |order| && DoneThrough(order, n, rows, before, after)
    requires rows' == rows[order[n] := after[order[n]]]
    ensures DoneThrough(order, n + 1, rows', before, after)
  {
    hide Covered;
    forall k | 0 <= k < |order| && k != n ensures order[k] != order[n] {
    }
  }

  lemma AllDone(order: seq<EventId>, rows: map<EventId, JobRow>, before: map<EventId, JobRow>, after: map<EventId,
                JobRow>)
    requires Lists(order, before) && DoneThrough(order, |order|, rows, before, after)
    ensures rows == after
  {
    forall id | id in before ensures rows[id] == after[id] {
      assert id in order;
    }
  }

  method LapseJobs(jobs: map<EventId, JobRow>, order: seq<EventId>, chainId: nat, now: Time)
    returns (lapsed: map<EventId, JobRow>)
    requires Lists(order, jobs)
    ensures lapsed == WithLapses(jobs, chainId, now)
  {
    hide HasLapsed, Distinct, Covered;
    ghost var goal := WithLapses(jobs, chainId, now);
    lapsed := jobs;
    for i := 0 to |order|
      invariant DoneThrough(order, i, lapsed, jobs, goal)
    {
      var row := lapsed[order[i]];
      DoneOneMore(order, i, lapsed, jobs, goal, lapsed[order[i] := goal[order[i]]]);
      if HasLapsed(row, chainId, now) {
        lapsed := lapsed[order[i] := row.(status := Expired)];
      } else {
        assert lapsed == lapsed[order[i] := row];
      }
    }
    AllDone(order, lapsed, jobs, goal);
  }

  /** How many of these jobs a sweep invalidates. */
  function Stale(canonical: set<BlockRef>, jobs: map<EventId, JobRow>, ids: seq<EventId>, chainId: nat): nat
    requires forall i :: 0 <= i < |ids| ==> ids[i] in jobs
  {
    if ids == [] then 0 else
    var n := |ids| - 1;
    Stale(canonical, jobs, ids[..n], chainId) + if IsStale(canonical, jobs[ids[n]], chainId) then 1 else 0
  }

  method SweepJobs(canonical: set<BlockRef>, jobs: map<EventId, JobRow>, order: seq<EventId>, chainId: nat)
    returns (swept: map<EventId, JobRow>, count: nat)
    requires Lists(order, jobs)
    ensures swept == AllSwept(canonical, jobs, chainId)
    ensures count == Stale(canonical, jobs, order, chainId)
  {
    hide IsStale, Distinct, Covered;
    ghost var goal := AllSwept(canonical, jobs, chainId);
    swept, count := jobs, 0;
    for i := 0 to |order|
      invariant DoneThrough(order, i, swept, jobs, goal)
      invariant count == Stale(canonical, jobs, order[..i], chainId)
    {
      assert order[..i + 1][..i] == order[..i];
      var row := swept[order[i]];
      DoneOneMore(order, i, swept, jobs, goal, swept[order[i] := goal[order[i]]]);
      if IsStale(canonical, row, chainId) {
        swept := swept[order[i] := row.(status := Invalidated, errorMessage := NO_LONGER_CANONICAL)];
        count := count + 1;
      } else {
        assert swept == swept[order[i] := row];
      }
    }
    AllDone(order, swept, jobs, goal);
    assert order[..|order|] == order;
  }

  /** The transaction statuses that a reconciliation returns, one for each of these jobs that it moves on. */
  function Settled(txs: map<EventId, TxRow>, jobs: map<EventId, JobRow>, ids: seq<EventId>): (r: seq<Tx.TxStatus>)
    requires forall i :: 0 <= i < |ids| ==> ids[i] in jobs
    ensures forall i :: 0 <= i < |r| ==> IsSettled(r[i])
  {
    if ids == [] then [] else
    var n := |ids| - 1;
    var row := jobs[ids[n]];
    Settled(txs, jobs, ids[..n]) + if CanReconcile(txs, row) then [txs[row.txJob.value].status] else []
  }

  method ReconcileRow(txs: map<EventId, TxRow>, row: JobRow) returns (r: JobRow)
    requires CanReconcile(txs, row)
    ensures r == Reconciled(txs, row)
  {
    var tx := txs[row.txJob.value];
    r := row.(errorMessage := tx.errorMessage);
    if tx.status.Finalized? {
      r := r.(status := Completed);
    } else if tx.status.Reorged? {
      r := r.(status := Invalidated);
    } else {
      r := r.(status := JobStatus.Failed);
    }
  }

  lemma Unsettled(txs: map<EventId, TxRow>, row: JobRow)
    ensures CanReconcile(txs, row) ==> row.txJob.Some? && row.txJob.value in txs
    ensures !CanReconcile(txs, row) ==> Reconciled(txs, row) == row
  {
  }

  method ReconcileJobs(txs: map<EventId, TxRow>, jobs: map<EventId, JobRow>, order: seq<EventId>)
    returns (reconciled: map<EventId, JobRow>, returned: seq<Tx.TxStatus>)
    requires Lists(order, jobs)
    ensures reconciled == AllReconciled(txs, jobs)
    ensures returned == Settled(txs, jobs, order)
  {
    hide Reconciled, IsSettled, CanReconcile, Settled, Distinct, Covered;
    ghost var goal := AllReconciled(txs, jobs);
    reconciled, returned := jobs, [];
    assert returned == Settled(txs, jobs, order[..0]) by { OneMoreSettled(txs, jobs, order, 0); }
    for i := 0 to |order|
      invariant DoneThrough(order, i, reconciled, jobs, goal)
      invariant returned == Settled(txs, jobs, order[..i])
    {
      var row := reconciled[order[i]];
      Unsettled(txs, row);
      OneMoreSettled(txs, jobs, order, i + 1);
      DoneOneMore(order, i, reconciled, jobs, goal, reconciled[order[i] := goal[order[i]]]);
      if CanReconcile(txs, row) {
        returned := returned + [txs[row.txJob.value].status];
        row := ReconcileRow(txs, row);
        reconciled := reconciled[order[i] := row];
      } else {
        assert reconciled == reconciled[order[i] := row];
      }
    }
    AllDone(order, reconciled, jobs, goal);
    assert order[..|order|] == order;
  }

  lemma OneMoreSettled(txs: map<EventId, TxRow>, jobs: map<EventId, JobRow>, ids: seq<EventId>, n: nat)
    requires n <= |ids| && forall i :: 0 <= i < |ids| ==> ids[i] in jobs
    ensures n == 0 ==> Settled(txs, jobs, ids[..n]) == []
    ensures n > 0 ==>
              var row := jobs[ids[n - 1]];
              Settled(txs, jobs, ids[..n]) == Settled(txs, jobs, ids[..n - 1])
                                              + if CanReconcile(txs, row) then [txs[row.txJob.value].status] else []
  {
    if n > 0 {
      assert ids[..n][..n - 1] == ids[..n - 1];
    }
  }

  ghost predicate Counts(r: ReconcileResult, returned: seq<Tx.TxStatus>) {
    && r.completed == multiset(returned)[Tx.Finalized]
    && r.failed == multiset(returned)[Tx.Failed]
    && r.reorged == multiset(returned)[Tx.Reorged]
  }

  method CountReturned(returned: seq<Tx.TxStatus>) returns (result: ReconcileResult)
    requires forall i :: 0 <= i < |returned| ==> IsSettled(returned[i])
    ensures Counts(result, returned)
  {
    result := ReconcileResult(0, 0, 0);
    for i := 0 to |returned|
      invariant Counts(result, returned[..i])
    {
      assert returned[..i + 1] == returned[..i] + [returned[i]];
      if returned[i].Finalized? {
        result := result.(completed := result.completed + 1);
      } else if returned[i].Reorged? {
        result := result.(reorged := result.reorged + 1);
      } else {
        result := result.(failed := result.failed + 1);
      }
    }
    assert returned[..|returned|] == returned;
  }

  class PostgresLiquidationJobStore {
    var jobs: map<EventId, JobRow>
    var order: seq<EventId>
    var txs: map<EventId, TxRow>
    var processed: set<EventId>
    /** Owned by the indexer; only read here. */
    var canonical: set<BlockRef>

    ghost function Tables(): State
      reads this
    {
      State(jobs, order, txs, processed, canonical)
    }

    ghost predicate Valid()
      reads this
    {
      Lists(order, jobs)
    }

    constructor ()
      ensures Valid() && Tables() == INITIAL
    {
      jobs, order, txs, processed, canonical := map[], [], map[], {}, {};
    }

    method Enqueue(id: EventId, candidate: Candidate) returns (r: Result<bool>)
      requires Valid()
      modifies this
      ensures Valid() && Tables() == Next(old(Tables()), Action.Enqueue(id, candidate))
      ensures r == (if id in old(processed) then Success(false)
                    else if candidate.canonicalVersion == 0 then Failure(CheckViolation) else Success(true))
    {
      if id in processed {
        return Success(false);
      }
      if candidate.canonicalVersion == 0 {
        return Failure(CheckViolation);
      }
      processed := processed + {id};
      if id !in jobs {
        jobs := jobs[id := JobRow(candidate, Available, None, None, 0, None, "")];
        order := order + [id];
      }
      return Success(true);
    }

    method ExpireLeases(chainId: nat, now: Time)
      requires Valid()
      modifies this`jobs
      ensures Valid() && jobs == WithLapses(old(jobs), chainId, now)
    {
      hide HasLapsed;
      jobs := LapseJobs(jobs, order, chainId, now);
    }

    /** The oldest claimable job that is not locked. */
    method FindNextJob(chainId: nat, locked: set<EventId>) returns (r: Option<EventId>)
      requires Valid()
      ensures r == NextJob(jobs, order, chainId, locked)
    {
      for i := 0 to |order|
        invariant NextJob(jobs, order, chainId, locked) == FirstFree(jobs, order, chainId, locked, i)
      {
        if order[i] !in locked && IsClaimable(jobs[order[i]], chainId) {
          return Some(order[i]);
        }
      }
      return None;
    }

    /** Expires what has lapsed, then leases the oldest claimable job that is not locked. */
    method Claim(chainId: nat, worker: Worker, now: Time, duration: int, locked: set<EventId>)
      returns (r: Result<Option<Handle>>)
      requires Valid()
      modifies this`jobs
      ensures Valid() && Tables() == Next(old(Tables()), Action.Claim(chainId, worker, now, duration, locked))
      ensures var c := ClaimedState(old(Tables()), chainId, worker, now, duration, locked);
              r == if c.Success? then Success(c.value.1) else Failure(c.error)
    {
      hide WithLapses, HasLapsed, NextJob, IsClaimable;
      var before := jobs;
      ExpireLeases(chainId, now);
      var next := FindNextJob(chainId, locked);
      if next.None? {
        return Success(None);
      }
      var id := next.value;
      var row := jobs[id];
      if row.fencingToken >= MAX_TOKEN {
        jobs := before;
        return Failure(Overflow);
      }
      row := row.(status := Claimed, worker := Some(worker), leaseUntil := Some(now + duration));
      row := row.(fencingToken := row.fencingToken + 1, errorMessage := "");
      jobs := jobs[id := row];
      return Success(Some(Handle(id, row.candidate, worker, row.fencingToken)));
    }

    /** Inserts the transaction and moves the job on, or neither. */
    method Submit(handle: Handle, submission: Submission, now: Time) returns (submitted: bool)
      requires Valid()
      modifies this`jobs, this`txs
      ensures Valid() && Tables() == Next(old(Tables()), Action.Submit(handle, submission, now))
      ensures submitted <==> CanSubmit(old(Tables()), handle, now)
    {
      var before := txs;
      if handle.id !in txs {
        txs := txs[handle.id := RequestedTx(handle, submission)];
      }
      submitted := handle.id in jobs;
      if submitted {
        var row := jobs[handle.id];
        submitted := row.status.Claimed? && row.worker == Some(handle.worker) && row.fencingToken == handle.fencingToken
          && row.leaseUntil.Some? && row.leaseUntil.value > now && row.candidate.source in canonical;
      }
      if submitted {
        jobs := jobs[handle.id := jobs[handle.id].(status := Submitted, txJob := Some(handle.id))];
      } else {
        txs := before;
      }
    }

    method Invalidate(handle: Handle, reason: string, now: Time) returns (invalidated: bool)
      requires Valid()
      modifies this`jobs
      ensures Valid() && Tables() == Next(old(Tables()), Action.Invalidate(handle, reason, now))
      ensures invalidated <==> HoldsLease(old(Tables()), handle, now)
    {
      invalidated := handle.id in jobs;
      if invalidated {
        var row := jobs[handle.id];
        invalidated := row.status.Claimed? && row.worker == Some(handle.worker)
          && row.fencingToken == handle.fencingToken && row.leaseUntil.Some? && row.leaseUntil.value > now;
      }
      if invalidated {
        jobs := jobs[handle.id := jobs[handle.id].(status := Invalidated, errorMessage := reason)];
      }
    }

    method InvalidateNonCanonical(chainId: nat) returns (count: nat)
      requires Valid()
      modifies this`jobs
      ensures Valid() && Tables() == Next(old(Tables()), Action.InvalidateNonCanonical(chainId))
      ensures count == Stale(canonical, old(jobs), order, chainId)
    {
      jobs, count := SweepJobs(canonical, jobs, order, chainId);
    }

    /** Moves submitted jobs on to what became of their transactions. */
    method ReconcileSubmitted() returns (result: ReconcileResult)
      requires Valid()
      modifies this`jobs
      ensures Valid() && Tables() == Next(old(Tables()), Reconcile)
      ensures Counts(result, Settled(txs, old(jobs), order))
    {
      hide Reconciled, CanReconcile, Counts;
      var returned;
      jobs, returned := ReconcileJobs(txs, jobs, order);
      result := CountReturned(returned);
    }
  }
}
