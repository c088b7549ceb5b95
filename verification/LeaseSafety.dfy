/** Lease safety of liquidation jobs under any interleaving of workers, sweeps, chain changes and clocks. */
module LeaseSafety {
  import opened Results
  import opened LiquidationJobs
  import Tx = TxJobs

  /** One transaction of a run, with the state it found. The clock readings need not be in order. */
  datatype Step = Step(before: State, action: Action)

  ghost predicate IsRun(run: seq<Step>) {
    && (run != [] ==> run[0].before == INITIAL)
    && forall i :: 0 < i < |run| ==> run[i].before == Next(run[i - 1].before, run[i - 1].action)
  }

  function After(run: seq<Step>): State {
    if run == [] then INITIAL else Next(run[|run| - 1].before, run[|run| - 1].action)
  }

  // What a step did -----------------------------------------------------------------------------

  /** The step is a claim that got this job. */
  predicate Grants(step: Step, id: EventId) {
    && step.action.Claim?
    && var a := step.action;
       var r := ClaimedState(step.before, a.chainId, a.worker, a.now, a.duration, a.locked);
       r.Success? && r.value.1.Some? && r.value.1.value.id == id
  }

  function IssuedToken(step: Step, id: EventId): nat
    requires Grants(step, id)
  {
    var a := step.action;
    ClaimedState(step.before, a.chainId, a.worker, a.now, a.duration, a.locked).value.1.value.fencingToken
  }

  predicate Submits(step: Step, id: EventId) {
    step.action.Submit? && step.action.handle.id == id && CanSubmit(step.before, step.action.handle, step.action.now)
  }

  predicate Withdraws(step: Step, id: EventId) {
    && step.action.Invalidate? && step.action.handle.id == id
    && HoldsLease(step.before, step.action.handle, step.action.now)
  }

  // One step on one job --------------------------------------------------------------------------

  predicate IsOpen(status: JobStatus) {
    status.Available? || status.Claimed? || status.Expired?
  }

  /** A job has a transaction exactly when it was submitted, and then it is no longer open. */
  ghost predicate RowOk(s: State, id: EventId)
    requires id in s.jobs
  {
    var row := s.jobs[id];
    && (row.txJob.Some? <==> id in s.txs)
    && (row.txJob.Some? ==> row.txJob.value == id && !IsOpen(row.status))
    && (row.status.Submitted? || row.status.Completed? || row.status.Failed? ==> row.txJob.Some?)
  }

  ghost predicate StateOk(s: State) {
    && (forall id :: id in s.jobs ==> RowOk(s, id))
    && (forall id :: id in s.txs ==> id in s.jobs)
    && (forall id :: id in s.jobs ==> id in s.processed)
  }

  /** One step keeps the shape of one job's row. */
  lemma RowStep(s: State, action: Action, id: EventId)
    requires id in s.jobs && RowOk(s, id)
    ensures id in Next(s, action).jobs && RowOk(Next(s, action), id)
  {
    match action
    case Claim(chainId, worker, now, duration, locked) =>
      var c := ClaimedState(s, chainId, worker, now, duration, locked);
      if c.Success? {
        assert RowOk(c.value.0, id);
      }
    case _ =>
  }

  lemma NewRowStep(s: State, action: Action, id: EventId)
    requires id !in s.jobs && id in Next(s, action).jobs && id !in s.txs
    ensures RowOk(Next(s, action), id) && id in Next(s, action).processed
  {
  }

  lemma KeysStep(s: State, action: Action)
    ensures var t := Next(s, action);
            && s.jobs.Keys <= t.jobs.Keys && s.processed <= t.processed
            && forall id :: id in t.txs ==> id in s.txs || id in s.jobs
  {
  }

  lemma NextKeepsState(s: State, action: Action)
    requires StateOk(s)
    ensures StateOk(Next(s, action))
  {
    hide Next, RowOk;
    KeysStep(s, action);
    var t := Next(s, action);
    forall id | id in t.jobs ensures RowOk(t, id) && id in t.processed {
      if id in s.jobs {
        RowStep(s, action, id);
      } else {
        NewRowStep(s, action, id);
      }
    }
  }

  /** The lease of a row is as it was, or taken away. */
  predicate OnlyLoses(row: JobRow, next: JobRow) {
    && next.candidate == row.candidate && next.fencingToken == row.fencingToken
    && (next.status.Claimed? ==>
          row.status.Claimed? && next.worker == row.worker && next.leaseUntil == row.leaseUntil)
  }

  /** What a step may do to a job's lease: grant it anew, or only take it away; the candidate never changes. */
  lemma LeaseMoves(step: Step, id: EventId)
    requires id in step.before.jobs
    ensures var row, next := step.before.jobs[id], Next(step.before, step.action).jobs;
            && id in next && next[id].candidate == row.candidate
            && if Grants(step, id) then
                 && IssuedToken(step, id) == row.fencingToken + 1 == next[id].fencingToken
                 && next[id].status.Claimed? && next[id].worker == Some(step.action.worker)
                 && next[id].leaseUntil == Some(step.action.now + step.action.duration)
               else
                 && next[id].fencingToken == row.fencingToken
                 && (next[id].status.Claimed? ==>
                       row.status.Claimed? && next[id].worker == row.worker && next[id].leaseUntil == row.leaseUntil)
  {
    if step.action.Claim? {
      ClaimMoves(step, id);
    } else {
      hide Next;
      OthersOnlyLose(step.before, step.action, id);
    }
  }

  lemma ClaimMoves(step: Step, id: EventId)
    requires id in step.before.jobs && step.action.Claim?
    ensures var row, next := step.before.jobs[id], Next(step.before, step.action).jobs;
            && id in next
            && if Grants(step, id) then
                 && IssuedToken(step, id) == row.fencingToken + 1 == next[id].fencingToken
                 && next[id].candidate == row.candidate
                 && next[id].status.Claimed? && next[id].worker == Some(step.action.worker)
                 && next[id].leaseUntil == Some(step.action.now + step.action.duration)
               else OnlyLoses(row, next[id])
  {
    hide NextJob;
  }

  lemma OthersOnlyLose(s: State, action: Action, id: EventId)
    requires id in s.jobs && !action.Claim?
    ensures id in Next(s, action).jobs && OnlyLoses(s.jobs[id], Next(s, action).jobs[id])
  {
  }

  lemma GrantNeedsJob(step: Step, id: EventId)
    requires Grants(step, id) || Submits(step, id)
    ensures id in step.before.jobs
  {
  }

  /** How the transaction row of a job comes about: by a submission, and it is never replaced. */
  lemma TxMoves(step: Step, id: EventId)
    requires StateOk(step.before)
    ensures var next := Next(step.before, step.action).txs;
            && (id in next <==> id in step.before.txs || Submits(step, id))
            && (id in step.before.txs ==>
                  && !Submits(step, id)
                  && next[id].submission == step.before.txs[id].submission
                  && next[id].chainId == step.before.txs[id].chainId)
            && (Submits(step, id) ==> next[id] == RequestedTx(step.action.handle, step.action.submission))
  {
    if Submits(step, id) {
      assert RowOk(step.before, id);
    }
  }

  // Every run --------------------------------------------------------------------------------

  /** The last claim that got the job. */
  ghost predicate LatestGrant(run: seq<Step>, id: EventId, i: int) {
    0 <= i < |run| && Grants(run[i], id) && forall k :: i < k < |run| ==> !Grants(run[k], id)
  }

  /** The lease on the row is the one that claim gave. */
  ghost predicate HeldBy(run: seq<Step>, row: JobRow, id: EventId, i: int) {
    && LatestGrant(run, id, i)
    && row.worker == Some(run[i].action.worker)
    && row.leaseUntil == Some(run[i].action.now + run[i].action.duration)
    && row.fencingToken == IssuedToken(run[i], id)
  }

  ghost predicate LeaseTold(run: seq<Step>, id: EventId) {
    var s := After(run);
    if id !in s.jobs then forall i :: 0 <= i < |run| ==> !Grants(run[i], id) else
    && (forall i :: 0 <= i < |run| && Grants(run[i], id) ==> IssuedToken(run[i], id) <= s.jobs[id].fencingToken)
    && (s.jobs[id].status.Claimed? ==> exists i :: HeldBy(run, s.jobs[id], id, i))
  }

  lemma RunPrefix(run: seq<Step>)
    requires IsRun(run) && run != []
    ensures IsRun(run[..|run| - 1]) && After(run[..|run| - 1]) == run[|run| - 1].before
  {
  }

  lemma {:induction false} StateOkAlways(run: seq<Step>)
    requires IsRun(run)
    ensures StateOk(After(run))
  {
    if run != [] {
      hide Next, StateOk;
      RunPrefix(run);
      StateOkAlways(run[..|run| - 1]);
      NextKeepsState(run[|run| - 1].before, run[|run| - 1].action);
    }
  }

  lemma {:induction false} LeaseIsTold(run: seq<Step>, id: EventId)
    requires IsRun(run)
    ensures LeaseTold(run, id)
  {
    if run != [] {
      hide Next, LeaseTold, IsRun;
      var n := |run| - 1;
      RunPrefix(run);
      LeaseIsTold(run[..n], id);
      assert run == run[..n] + [run[n]];
      if id in run[n].before.jobs {
        LeaseStaysTold(run[..n], run[n], id);
      } else {
        LeaseBeginsTold(run[..n], run[n], id);
      }
    }
  }

  lemma LeaseStaysTold(run: seq<Step>, step: Step, id: EventId)
    requires After(run) == step.before && id in step.before.jobs && LeaseTold(run, id)
    ensures LeaseTold(run + [step], id)
  {
    hide Next, Grants, IssuedToken, After;
    var longer := run + [step];
    assert After(longer) == Next(step.before, step.action) by { AfterStep(run, step); }
    LeaseMoves(step, id);
    var row := After(longer).jobs[id];
    if Grants(step, id) {
      assert HeldBy(longer, row, id, |run|);
    } else if row.status.Claimed? {
      var i :| HeldBy(run, step.before.jobs[id], id, i);
      assert longer[i] == run[i];
      assert HeldBy(longer, row, id, i);
    }
  }

  lemma LeaseBeginsTold(run: seq<Step>, step: Step, id: EventId)
    requires After(run) == step.before && id !in step.before.jobs && LeaseTold(run, id)
    ensures LeaseTold(run + [step], id)
  {
    hide Next, Grants, IssuedToken, After;
    assert After(run + [step]) == Next(step.before, step.action) by { AfterStep(run, step); }
    assert !Grants(step, id) by {
      if Grants(step, id) {
        GrantNeedsJob(step, id);
      }
    }
    NewJobIsUnclaimed(step, id);
  }

  lemma AfterStep(run: seq<Step>, step: Step)
    ensures After(run + [step]) == Next(step.before, step.action)
  {
  }

  lemma NewJobIsUnclaimed(step: Step, id: EventId)
    requires id !in step.before.jobs
    ensures id in Next(step.before, step.action).jobs ==> Next(step.before, step.action).jobs[id].status.Available?
  {
  }

  /** Each claim of a job is given a strictly greater token than every earlier one. */
  lemma TokensIncrease(run: seq<Step>, i: nat, k: nat, id: EventId)
    requires IsRun(run) && i < k < |run| && Grants(run[i], id) && Grants(run[k], id)
    ensures IssuedToken(run[i], id) < IssuedToken(run[k], id)
  {
    hide Next, Grants, IssuedToken;
    PrefixIsRun(run, k);
    LeaseIsTold(run[..k], id);
    GrantNeedsJob(run[k], id);
    LeaseMoves(run[k], id);
    assert run[..k][i] == run[i];
  }

  lemma PrefixIsRun(run: seq<Step>, k: nat)
    requires IsRun(run) && k < |run|
    ensures IsRun(run[..k]) && After(run[..k]) == run[k].before
  {
  }

  /** Whoever submits or invalidates holds the job's latest claim, and its lease has not run out by the clock read. */
  lemma OnlyLatestClaimActs(run: seq<Step>, k: nat, id: EventId)
    requires IsRun(run) && k < |run| && (Submits(run[k], id) || Withdraws(run[k], id))
    ensures exists i ::
              && LatestGrant(run[..k], id, i)
              && run[i].action.worker == run[k].action.handle.worker
              && IssuedToken(run[i], id) == run[k].action.handle.fencingToken
              && run[k].action.now < run[i].action.now + run[i].action.duration
  {
    hide Next, Grants, IssuedToken;
    PrefixIsRun(run, k);
    LeaseIsTold(run[..k], id);
    var i :| HeldBy(run[..k], run[k].before.jobs[id], id, i);
    assert run[..k][i] == run[i];
  }

  /** The transaction of a job, as the run tells it. */
  ghost predicate TxTold(run: seq<Step>, id: EventId) {
    var s := After(run);
    && (id in s.txs <==> exists i :: 0 <= i < |run| && Submits(run[i], id))
    && (forall i, k :: 0 <= i < k < |run| && Submits(run[i], id) ==> !Submits(run[k], id))
    && (forall i :: 0 <= i < |run| && Submits(run[i], id) ==>
          && id in s.txs
          && s.txs[id].submission == run[i].action.submission
          && s.txs[id].chainId == run[i].action.handle.candidate.source.chainId
          && run[i].before.jobs[id].candidate.source in run[i].before.canonical)
  }

  /** In every run, at most one submission of a job ever succeeds; the job has a transaction row exactly when one did,
      and the row carries that submission, made while the job's source block was canonical. */
  lemma {:induction false} SubmittedAtMostOnce(run: seq<Step>, id: EventId)
    requires IsRun(run)
    ensures TxTold(run, id)
  {
    if run != [] {
      hide Next, StateOk, IsRun, After, TxTold;
      var n := |run| - 1;
      RunPrefix(run);
      SubmittedAtMostOnce(run[..n], id);
      StateOkAlways(run[..n]);
      assert run == run[..n] + [run[n]];
      TxStaysTold(run[..n], run[n], id);
    }
  }

  lemma TxStaysTold(run: seq<Step>, step: Step, id: EventId)
    requires After(run) == step.before && StateOk(step.before) && TxTold(run, id)
    ensures TxTold(run + [step], id)
  {
    hide Next, StateOk, HoldsLease, After;
    var longer := run + [step];
    AfterStep(run, step);
    TxMoves(step, id);
    assert forall i :: 0 <= i < |run| ==> longer[i] == run[i];
    if id in step.before.txs {
      var i :| 0 <= i < |run| && Submits(run[i], id);
      assert Submits(longer[i], id);
    } else if Submits(step, id) {
      assert Submits(longer[|run|], id);
    }
  }

  // What decides a transaction -------------------------------------------------------------------

  /** A claim may take the job: it is free, or its lease has run out by the clock read. */
  predicate IsOpenTo(row: JobRow, chainId: nat, now: Time) {
    && row.candidate.source.chainId == chainId
    && (|| row.status == Available || row.status == Expired
        || (row.status == Claimed && row.leaseUntil.Some? && row.leaseUntil.value <= now))
  }

  ghost predicate IsTakeable(s: State, id: EventId, a: Action)
    requires a.Claim?
  {
    id in s.jobs && id !in a.locked && IsOpenTo(s.jobs[id], a.chainId, a.now)
  }

  /** A claim gets the oldest job it may take, unless its token is used up, and nothing only if there is none. */
  lemma ClaimDecided(step: Step, i: nat)
    requires step.action.Claim? && i < |step.before.order|
    requires IsTakeable(step.before, step.before.order[i], step.action)
    requires forall k :: 0 <= k < i ==> !IsTakeable(step.before, step.before.order[k], step.action)
    ensures var id := step.before.order[i];
            Grants(step, id) <==> step.before.jobs[id].fencingToken < MAX_TOKEN
  {
    hide NextJob;
    var s, a := step.before, step.action;
    var jobs := WithLapses(s.jobs, a.chainId, a.now);
    assert forall id :: IsFree(jobs, id, a.chainId, a.locked) <==> IsTakeable(s, id, a);
    assert NextJob(jobs, s.order, a.chainId, a.locked) == Some(s.order[i]) by {
      FirstFreeIs(jobs, s.order, a.chainId, a.locked, i);
    }
  }

  lemma FirstFreeIs(jobs: map<EventId, JobRow>, order: seq<EventId>, chainId: nat, locked: set<EventId>, i: nat)
    requires i < |order| && IsFree(jobs, order[i], chainId, locked)
    requires forall k :: 0 <= k < i ==> !IsFree(jobs, order[k], chainId, locked)
    ensures NextJob(jobs, order, chainId, locked) == Some(order[i])
  {
    hide IsFree;
  }

  /** And what a claim gets is the oldest job it may take. */
  lemma GrantedIsOldest(step: Step, id: EventId)
    requires step.action.Claim? && Grants(step, id)
    ensures exists i :: && 0 <= i < |step.before.order| && step.before.order[i] == id
                        && IsTakeable(step.before, id, step.action)
                        && forall k :: 0 <= k < i ==> !IsTakeable(step.before, step.before.order[k], step.action)
  {
    hide NextJob;
    var s, a := step.before, step.action;
    var jobs := WithLapses(s.jobs, a.chainId, a.now);
    assert forall id :: IsFree(jobs, id, a.chainId, a.locked) <==> IsTakeable(s, id, a);
  }

  /** A new event with a version adds one available job at the end of the order; a redelivered one, or one without a
      version, changes nothing. */
  lemma EnqueueDecided(run: seq<Step>, id: EventId, candidate: Candidate)
    requires IsRun(run)
    ensures var s, t := After(run), Next(After(run), Enqueue(id, candidate));
            if id in s.processed || candidate.canonicalVersion == 0 then t == s else
            t == s.(processed := s.processed + {id}, order := s.order + [id],
                    jobs := s.jobs[id := JobRow(candidate, Available, None, None, 0, None, "")])
  {
    hide IsRun, After;
    StateOkAlways(run);
  }

  /** The lease on the job is the handle's, and has not run out by the clock read. */
  predicate IsLeasedTo(s: State, handle: Handle, now: Time) {
    && handle.id in s.jobs
    && s.jobs[handle.id].status == Claimed && s.jobs[handle.id].worker == Some(handle.worker)
    && s.jobs[handle.id].fencingToken == handle.fencingToken
    && s.jobs[handle.id].leaseUntil.Some? && now < s.jobs[handle.id].leaseUntil.value
  }

  /** After any run, a submission creates the job's transaction, exactly as asked for, if and only if the lease is
      the handle's and the source block is canonical; otherwise it changes nothing. */
  lemma SubmitDecided(run: seq<Step>, handle: Handle, submission: Submission, now: Time)
    requires IsRun(run)
    ensures var s, t := After(run), Next(After(run), Submit(handle, submission, now));
            if IsLeasedTo(s, handle, now) && s.jobs[handle.id].candidate.source in s.canonical then
              t == s.(jobs := s.jobs[handle.id := s.jobs[handle.id].(status := Submitted, txJob := Some(handle.id))],
                      txs := s.txs[handle.id := TxRow(handle.candidate.source.chainId, submission, Tx.Pending, "")])
            else t == s
  {
    hide IsRun, After;
    StateOkAlways(run);
    var s := After(run);
    if IsLeasedTo(s, handle, now) {
      assert RowOk(s, handle.id);
    }
  }

  /** An invalidation ends the job, with its reason, if and only if the lease is the handle's. */
  lemma InvalidateDecided(s: State, handle: Handle, reason: string, now: Time)
    ensures var t := Next(s, Invalidate(handle, reason, now));
            if IsLeasedTo(s, handle, now) then
              t == s.(jobs := s.jobs[handle.id := s.jobs[handle.id].(status := Invalidated, errorMessage := reason)])
            else t == s
  {
  }

  /** A sweep of a chain invalidates exactly its open jobs whose block is not canonical. */
  lemma SweepDecided(s: State, chainId: nat, id: EventId)
    requires id in s.jobs
    ensures var row, next := s.jobs[id], Next(s, InvalidateNonCanonical(chainId)).jobs;
            var stale := && row.candidate.source.chainId == chainId && IsOpen(row.status)
                         && row.candidate.source !in s.canonical;
            && id in next
            && (stale ==> next[id].status == Invalidated && next[id].errorMessage == NO_LONGER_CANONICAL)
            && (!stale ==> next[id] == row)
  {
  }

  /** A reconciliation ends exactly the submitted jobs whose transaction is settled, with its error text. */
  lemma ReconcileDecided(run: seq<Step>, id: EventId)
    requires IsRun(run) && id in After(run).jobs
    ensures var s, next := After(run), Next(After(run), Action.Reconcile).jobs;
            && id in next
            && if s.jobs[id].status != Submitted then next[id] == s.jobs[id] else
               && id in s.txs
               && match s.txs[id].status
                  case Finalized => next[id] == s.jobs[id].(status := Completed, errorMessage := s.txs[id].errorMessage)
                  case Failed =>
                    next[id] == s.jobs[id].(status := JobStatus.Failed, errorMessage := s.txs[id].errorMessage)
                  case Reorged => next[id] == s.jobs[id].(status := Invalidated, errorMessage := s.txs[id].errorMessage)
                  case _ => next[id] == s.jobs[id]
  {
    hide IsRun, After;
    StateOkAlways(run);
    assert RowOk(After(run), id);
  }

  // How jobs end -----------------------------------------------------------------------------------

  /** The step reconciles the submitted job with a transaction in this status. */
  predicate Settles(step: Step, id: EventId, status: Tx.TxStatus) {
    && step.action.Reconcile? && id in step.before.jobs && id in step.before.txs
    && step.before.jobs[id].status == Submitted && step.before.txs[id].status == status
  }

  /** The end that a settled transaction gives its job. */
  ghost predicate EndsAs(row: JobRow, status: Tx.TxStatus) {
    match status
    case Finalized => row.status == Completed
    case Failed => row.status == JobStatus.Failed
    case Reorged => row.status == Invalidated && row.txJob.Some?
    case _ => false
  }

  lemma EndMoves(step: Step, id: EventId, status: Tx.TxStatus)
    requires StateOk(step.before) && id in step.before.jobs
    ensures id in Next(step.before, step.action).jobs
    ensures EndsAs(Next(step.before, step.action).jobs[id], status) <==>
            EndsAs(step.before.jobs[id], status)
            || (Settles(step, id, status) && (status.Finalized? || status.Failed? || status.Reorged?))
  {
    assert RowOk(step.before, id);
    if step.action.Claim? {
      ClaimKeepsEnds(step, id, status);
    }
  }

  lemma ClaimKeepsEnds(step: Step, id: EventId, status: Tx.TxStatus)
    requires id in step.before.jobs && RowOk(step.before, id) && step.action.Claim?
    ensures id in Next(step.before, step.action).jobs
    ensures EndsAs(Next(step.before, step.action).jobs[id], status) <==> EndsAs(step.before.jobs[id], status)
  {
    hide NextJob;
  }

  lemma NewJobHasNotEnded(step: Step, id: EventId, status: Tx.TxStatus)
    requires id !in step.before.jobs && id in Next(step.before, step.action).jobs
    ensures !EndsAs(Next(step.before, step.action).jobs[id], status) && !Settles(step, id, status)
  {
    NewJobIsUnclaimed(step, id);
  }

  /** In every run, a job is completed if and only if it was once reconciled with its finalized transaction, failed if
      and only if with a failed one, and invalidated after its submission if and only if with a reorganised one. */
  lemma {:induction false} EndedBy(run: seq<Step>, id: EventId, status: Tx.TxStatus)
    requires IsRun(run) && (status.Finalized? || status.Failed? || status.Reorged?)
    ensures id in After(run).jobs && EndsAs(After(run).jobs[id], status) <==>
            exists i :: 0 <= i < |run| && Settles(run[i], id, status)
  {
    if run != [] {
      hide Next, StateOk, IsRun, EndsAs, Settles;
      var n := |run| - 1;
      RunPrefix(run);
      EndedBy(run[..n], id, status);
      StateOkAlways(run[..n]);
      assert forall i :: 0 <= i < n ==> run[..n][i] == run[i];
      if id in run[n].before.jobs {
        EndMoves(run[n], id, status);
      } else if id in Next(run[n].before, run[n].action).jobs {
        NewJobHasNotEnded(run[n], id, status);
      } else {
        UnknownJobSettlesNothing(run[n], id, status);
      }
    }
  }

  lemma UnknownJobSettlesNothing(step: Step, id: EventId, status: Tx.TxStatus)
    requires id !in step.before.jobs
    ensures !Settles(step, id, status)
  {
  }
}
