/** Liquidation jobs with leases and fencing tokens (LiquidationJobs.cpp): every database transaction is one atomic
    step, taken by any worker at any time. */
module LiquidationJobs {
  import opened Results
  import Uint256
  import opened Transactions
  import Tx = TxJobs

  /** A job carries the id of the event it was made from, and so does its row in `tx_jobs`. */
  type EventId = string
  type Worker = string
  type Time = int

  /** The range of the `fencing_token` column. */
  const MAX_TOKEN: nat := 0x7fff_ffff_ffff_ffff

  datatype BlockRef = BlockRef(chainId: nat, number: nat, hash: Tx.Hash)

  datatype Candidate = Candidate(
    borrower: AddressBytes,
    healthFactor: nat,
    debtAsset: AddressBytes,
    collateralAsset: AddressBytes,
    maxRepay: nat,
    expectedBonus: nat,
    expectedCollateral: nat,
    expectedBadDebt: nat,
    source: BlockRef,
    canonicalVersion: nat)

  datatype JobStatus = Available | Claimed | Submitted | Completed | Expired | Failed | Invalidated

  datatype JobRow = JobRow(
    candidate: Candidate,
    status: JobStatus,
    worker: Option<Worker>,
    leaseUntil: Option<Time>,
    fencingToken: nat,
    txJob: Option<EventId>,
    errorMessage: string)

  /** What a worker was handed by a claim, or pretends to have been. */
  datatype Handle = Handle(id: EventId, candidate: Candidate, worker: Worker, fencingToken: nat)

  datatype Submission = Submission(destination: AddressBytes, value: Word, data: seq<Uint256.byte>,
                                   wallet: AddressBytes)

  /** The transaction a submission asks for; its status belongs to the transaction manager. */
  datatype TxRow = TxRow(chainId: nat, submission: Submission, status: Tx.TxStatus, errorMessage: string)

  datatype State = State(
    jobs: map<EventId, JobRow>,
    order: seq<EventId>,
    txs: map<EventId, TxRow>,
    processed: set<EventId>,
    canonical: set<BlockRef>)

  const INITIAL := State(map[], [], map[], {}, {})

  const NO_LONGER_CANONICAL := "source block is no longer canonical"

  // Steps ------------------------------------------------------------------------------------

  /** One transaction: of the event consumer, a worker, the sweeper, or of the services that own the tables it reads. */
  datatype Action =
    | Enqueue(id: EventId, candidate: Candidate)
    | Claim(chainId: nat, worker: Worker, now: Time, duration: int, locked: set<EventId>)
    | Submit(handle: Handle, submission: Submission, now: Time)
    | Invalidate(handle: Handle, reason: string, now: Time)
    | InvalidateNonCanonical(chainId: nat)
    | Reconcile
    | BlocksChange(canonical: set<BlockRef>)
    | TxChanges(id: EventId, status: Tx.TxStatus, errorMessage: string)

  /** A redelivered event does nothing; a row that breaks a column check rolls the transaction back. */
  function Enqueued(s: State, id: EventId, candidate: Candidate): Result<State> {
    if id in s.processed then Success(s) else
    if candidate.canonicalVersion == 0 then Failure(CheckViolation) else
    var seen := s.(processed := s.processed + {id});
    Success(if id in s.jobs then seen
            else seen.(jobs := s.jobs[id := JobRow(candidate, Available, None, None, 0, None, "")],
                       order := s.order + [id]))
  }

  predicate HasLapsed(row: JobRow, chainId: nat, now: Time) {
    && row.candidate.source.chainId == chainId && row.status.Claimed?
    && row.leaseUntil.Some? && row.leaseUntil.value <= now
  }

  function Lapsed(row: JobRow, chainId: nat, now: Time): JobRow {
    if HasLapsed(row, chainId, now) then row.(status := Expired) else row
  }

  /** Expires the leases that have run out. */
  function WithLapses(jobs: map<EventId, JobRow>, chainId: nat, now: Time): (r: map<EventId, JobRow>)
    ensures r.Keys == jobs.Keys
  {
    map id | id in jobs :: Lapsed(jobs[id], chainId, now)
  }

  predicate IsClaimable(row: JobRow, chainId: nat) {
    row.candidate.source.chainId == chainId && (row.status.Available? || row.status.Expired?)
  }

  predicate IsFree(jobs: map<EventId, JobRow>, id: EventId, chainId: nat, locked: set<EventId>) {
    id in jobs && id !in locked && IsClaimable(jobs[id], chainId)
  }

  /** The oldest claimable job that no other transaction holds locked. */
  function NextJob(jobs: map<EventId, JobRow>, order: seq<EventId>, chainId: nat, locked: set<EventId>)
    : (r: Option<EventId>)
    ensures r.Some? ==> IsFree(jobs, r.value, chainId, locked)
    ensures r.Some? ==> exists i :: && 0 <= i < |order| && order[i] == r.value
                                    && forall k :: 0 <= k < i ==> !IsFree(jobs, order[k], chainId, locked)
    ensures r.None? ==> forall i :: 0 <= i < |order| ==> !IsFree(jobs, order[i], chainId, locked)
  {
    FirstFree(jobs, order, chainId, locked, 0)
  }

  /** The first free job at or after a position. */
  function FirstFree(jobs: map<EventId, JobRow>, order: seq<EventId>, chainId: nat, locked: set<EventId>, from: nat)
    : (r: Option<EventId>)
    requires from <= |order|
    ensures r.Some? ==> exists i :: && from <= i < |order| && order[i] == r.value
                                    && IsFree(jobs, order[i], chainId, locked)
                                    && forall k :: from <= k < i ==> !IsFree(jobs, order[k], chainId, locked)
    ensures r.None? ==> forall i :: from <= i < |order| ==> !IsFree(jobs, order[i], chainId, locked)
    decreases |order| - from
  {
    if from == |order| then None
    else if IsFree(jobs, order[from], chainId, locked) then Some(order[from])
    else FirstFree(jobs, order, chainId, locked, from + 1)
  }

  function Granted(row: JobRow, worker: Worker, now: Time, duration: int): JobRow {
    row.(status := Claimed, worker := Some(worker), leaseUntil := Some(now + duration),
         fencingToken := row.fencingToken + 1, errorMessage := "")
  }

  /** A claim fails, and rolls back, only when the token column is exhausted. */
  function ClaimedState(s: State, chainId: nat, worker: Worker, now: Time, duration: int, locked: set<EventId>)
    : Result<(State, Option<Handle>)>
  {
    var jobs := WithLapses(s.jobs, chainId, now);
    var picked := NextJob(jobs, s.order, chainId, locked);
    if picked.None? then Success((s.(jobs := jobs), None)) else
    var id := picked.value;
    if jobs[id].fencingToken >= MAX_TOKEN then Failure(Overflow) else
    var row := Granted(jobs[id], worker, now, duration);
    Success((s.(jobs := jobs[id := row]), Some(Handle(id, row.candidate, worker, row.fencingToken))))
  }

  /** The guard of every action under a lease. */
  predicate HoldsLease(s: State, handle: Handle, now: Time) {
    && handle.id in s.jobs
    && var row := s.jobs[handle.id];
       && row.status.Claimed?
       && row.worker == Some(handle.worker)
       && row.fencingToken == handle.fencingToken
       && row.leaseUntil.Some? && row.leaseUntil.value > now
  }

  predicate CanSubmit(s: State, handle: Handle, now: Time) {
    HoldsLease(s, handle, now) && s.jobs[handle.id].candidate.source in s.canonical
  }

  function RequestedTx(handle: Handle, submission: Submission): TxRow {
    TxRow(handle.candidate.source.chainId, submission, Tx.Pending, "")
  }

  /** The row is inserted first, and goes with the rollback when the guarded update finds nothing. */
  function SubmittedState(s: State, handle: Handle, submission: Submission, now: Time): State {
    if !CanSubmit(s, handle, now) then s else
    s.(txs := if handle.id in s.txs then s.txs else s.txs[handle.id := RequestedTx(handle, submission)],
       jobs := s.jobs[handle.id := s.jobs[handle.id].(status := Submitted, txJob := Some(handle.id))])
  }

  function InvalidatedState(s: State, handle: Handle, reason: string, now: Time): State {
    if !HoldsLease(s, handle, now) then s else
    s.(jobs := s.jobs[handle.id := s.jobs[handle.id].(status := Invalidated, errorMessage := reason)])
  }

  predicate IsStale(canonical: set<BlockRef>, row: JobRow, chainId: nat) {
    && row.candidate.source.chainId == chainId
    && (row.status.Available? || row.status.Claimed? || row.status.Expired?)
    && row.candidate.source !in canonical
  }

  function Swept(canonical: set<BlockRef>, row: JobRow, chainId: nat): JobRow {
    if IsStale(canonical, row, chainId) then row.(status := Invalidated, errorMessage := NO_LONGER_CANONICAL) else row
  }

  predicate IsSettled(status: Tx.TxStatus) {
    status.Finalized? || status.Failed? || status.Reorged?
  }

  predicate CanReconcile(txs: map<EventId, TxRow>, row: JobRow) {
    row.status.Submitted? && row.txJob.Some? && row.txJob.value in txs && IsSettled(txs[row.txJob.value].status)
  }

  function Reconciled(txs: map<EventId, TxRow>, row: JobRow): JobRow {
    if !CanReconcile(txs, row) then row else
    var tx := txs[row.txJob.value];
    row.(status := match tx.status case Finalized => Completed case Reorged => Invalidated case _ => JobStatus.Failed,
         errorMessage := tx.errorMessage)
  }

  function AllSwept(canonical: set<BlockRef>, jobs: map<EventId, JobRow>, chainId: nat): map<EventId, JobRow> {
    map id | id in jobs :: Swept(canonical, jobs[id], chainId)
  }

  function AllReconciled(txs: map<EventId, TxRow>, jobs: map<EventId, JobRow>): map<EventId, JobRow> {
    map id | id in jobs :: Reconciled(txs, jobs[id])
  }

  function Next(s: State, action: Action): State {
    match action
    case Enqueue(id, candidate) =>
      var r := Enqueued(s, id, candidate);
      if r.Success? then r.value else s
    case Claim(chainId, worker, now, duration, locked) =>
      var r := ClaimedState(s, chainId, worker, now, duration, locked);
      if r.Success? then r.value.0 else s
    case Submit(handle, submission, now) => SubmittedState(s, handle, submission, now)
    case Invalidate(handle, reason, now) => InvalidatedState(s, handle, reason, now)
    case InvalidateNonCanonical(chainId) => s.(jobs := AllSwept(s.canonical, s.jobs, chainId))
    case Reconcile => s.(jobs := AllReconciled(s.txs, s.jobs))
    case BlocksChange(canonical) => s.(canonical := canonical)
    case TxChanges(id, status, errorMessage) =>
      if id !in s.txs then s else s.(txs := s.txs[id := s.txs[id].(status := status, errorMessage := errorMessage)])
  }
}
