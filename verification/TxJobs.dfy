/** Transaction jobs and what the transaction manager writes and sends for one of them (TxManager.cpp,
    PostgresTransactionStore.cpp), as a sequence of atomic effects that a crash may cut anywhere. */
module TxJobs {
  import opened Results
  import opened FixedPoint
  import opened Uint256
  import opened Transactions

  const UINT64_MODULUS: nat := MAX_UINT64 + 1

  type JobId = nat
  type Hash = nat

  datatype TxStatus = Pending | Submitted | Included | Finalized | Failed | Replaced | Reorged

  /** A wallet on a chain; one serial manager signs for it. */
  datatype Account = Account(chainId: Word, wallet: AddressBytes)

  datatype Call = Call(to: AddressBytes, value: Word, data: seq<byte>)

  datatype TxJob = TxJob(
    account: Account,
    call: Call,
    status: TxStatus,
    nonce: Option<Word>,
    maxPriorityFeePerGas: Option<Word>,
    maxFeePerGas: Option<Word>,
    gasLimit: Option<Word>,
    rawTransaction: Option<Eip1559Transaction>,
    transactionHash: Option<Hash>,
    retryCount: nat,
    submittedBlockNumber: Option<nat>,
    includedBlockNumber: Option<nat>,
    includedBlockHash: Option<Hash>,
    confirmationCount: nat,
    errorMessage: string)

  /** A newly queued job: the columns an insert leaves to their defaults. */
  function Queued(account: Account, call: Call): TxJob {
    TxJob(account, call, Pending, None, None, None, None, None, None, 0, None, None, None, 0, "")
  }

  datatype ApprovedCall = ApprovedCall(destination: AddressBytes, selector: seq<byte>, calldataSize: nat)

  datatype Config = Config(
    confirmationDepth: nat,
    replacementAfterBlocks: nat,
    maximumRetries: nat,
    approvedCalls: seq<ApprovedCall>)

  // The node's answers -----------------------------------------------------------------------

  datatype RpcErrorKind = Transport | Http | Protocol

  /** One call to the node: an answer, an RPC exception, or anything that ends the process or the run. */
  datatype Reply<+T> = Answer(value: T) | Raised(kind: RpcErrorKind, text: string) | Aborted

  datatype Quote = Quote(maxPriorityFeePerGas: Word, maxFeePerGas: Word)

  datatype Receipt = Receipt(blockNumber: Word, blockHash: Hash, succeeded: bool)

  /** The answers to the calls made for one job, and the hash of the transaction signed for it. */
  datatype Replies = Replies(
    pendingNonce: Reply<Word>,
    gas: Reply<Word>,
    fees: Reply<Quote>,
    submitHead: Reply<nat>,
    signedHash: Hash,
    send: Reply<Hash>,
    receipt: Reply<Option<Receipt>>,
    pollHead: Reply<nat>,
    block: Reply<Option<Hash>>)

  // Processing one job -----------------------------------------------------------------------

  /** What the manager does to the outside: a row update, or a raw transaction handed to the node. */
  datatype Effect = Save(job: TxJob) | Send(tx: Eip1559Transaction)

  /** Why the try block was left: an RPC exception, which is caught, or another one, which is not. */
  datatype Stop = Caught(kind: RpcErrorKind, text: string) | Uncaught

  /** A job in memory, the effects so far, and whether control is still in the straight-line code. */
  datatype Progress = Progress(job: TxJob, effects: seq<Effect>, broadcastAttempted: bool, stop: Option<Stop>) {
    function Saved(next: TxJob): Progress {
      this.(job := next, effects := effects + [Save(next)])
    }

    function Stopped<T>(reply: Reply<T>): Progress
      requires !reply.Answer?
    {
      this.(stop := Some(if reply.Raised? then Caught(reply.kind, reply.text) else Uncaught))
    }
  }

  predicate IsApproved(config: Config, call: Call) {
    && call.value == 0
    && exists i :: 0 <= i < |config.approvedCalls| &&
         var approved := config.approvedCalls[i];
         && call.to == approved.destination
         && |call.data| == approved.calldataSize
         && approved.selector <= call.data
  }

  /** The next nonce: past the stored ones, and at least what the node reports. */
  function AllocateNonce(highest: Option<Word>, rpcNonce: Word): Option<Word> {
    if highest.None? then Some(rpcNonce) else
    if highest.value == MAX_UINT256 then None else
    Some(if highest.value + 1 > rpcNonce then highest.value + 1 else rpcNonce)
  }

  function WithNonce(p: Progress, highest: Option<Word>, rpc: Replies): Progress {
    if p.stop.Some? || p.job.nonce.Some? then p else
    if !rpc.pendingNonce.Answer? then p.Stopped(rpc.pendingNonce) else
    var nonce := AllocateNonce(highest, rpc.pendingNonce.value);
    if nonce.None? then p.(stop := Some(Uncaught)) else p.(job := p.job.(nonce := nonce))
  }

  function WithGas(p: Progress, rpc: Replies): Progress {
    if p.stop.Some? || p.job.gasLimit.Some? then p else
    if !rpc.gas.Answer? then p.Stopped(rpc.gas) else
    p.(job := p.job.(gasLimit := Some(rpc.gas.value)))
  }

  function BumpFee(fee: Word): Result<Word> {
    MulDivUp(fee, 1_125, 1_000)
  }

  predicate IsReplacement(job: TxJob, retry: bool) {
    retry && job.maxPriorityFeePerGas.Some? && job.maxFeePerGas.Some?
  }

  /** A replacement is recorded with the old fees, then bumped; otherwise the node's quote is taken. */
  function WithFees(p: Progress, retry: bool, rpc: Replies): Progress {
    if p.stop.Some? then p else
    if IsReplacement(p.job, retry) then
      var q := p.Saved(p.job.(status := Replaced));
      var priority, fee := BumpFee(q.job.maxPriorityFeePerGas.value), BumpFee(q.job.maxFeePerGas.value);
      if priority.Failure? || fee.Failure? then q.(stop := Some(Uncaught)) else
      q.(job := q.job.(maxPriorityFeePerGas := Some(priority.value), maxFeePerGas := Some(fee.value)))
    else if !rpc.fees.Answer? then p.Stopped(rpc.fees)
    else p.(job := p.job.(maxPriorityFeePerGas := Some(rpc.fees.value.maxPriorityFeePerGas),
                          maxFeePerGas := Some(rpc.fees.value.maxFeePerGas)))
  }

  /** The transaction built from a prepared job. */
  function TransactionOf(job: TxJob): Eip1559Transaction
    requires job.nonce.Some? && job.maxPriorityFeePerGas.Some? && job.maxFeePerGas.Some? && job.gasLimit.Some?
  {
    Eip1559Transaction(job.account.chainId, job.nonce.value, job.maxPriorityFeePerGas.value, job.maxFeePerGas.value,
                       job.gasLimit.value, Some(job.call.to), job.call.value, job.call.data)
  }

  predicate IsPrepared(job: TxJob) {
    job.nonce.Some? && job.gasLimit.Some? && job.maxPriorityFeePerGas.Some? && job.maxFeePerGas.Some?
  }

  function Signed(p: Progress, rpc: Replies): Progress
    requires p.stop.None? ==> IsPrepared(p.job)
  {
    if p.stop.Some? then p else
    var signed := p.job.(rawTransaction := Some(TransactionOf(p.job)), status := Submitted);
    if !rpc.submitHead.Answer? then p.(job := signed).Stopped(rpc.submitHead) else
    p.Saved(signed.(submittedBlockNumber := Some(rpc.submitHead.value), transactionHash := Some(rpc.signedHash),
                    includedBlockNumber := None, includedBlockHash := None, confirmationCount := 0, errorMessage := ""))
  }

  function Broadcast(p: Progress, rpc: Replies): Progress
    requires p.stop.None? ==> p.job.rawTransaction.Some?
  {
    if p.stop.Some? then p else
    var q := p.(effects := p.effects + [Send(p.job.rawTransaction.value)], broadcastAttempted := true);
    if !rpc.send.Answer? then q.Stopped(rpc.send) else
    q.Saved(q.job.(transactionHash := Some(rpc.send.value)))
  }

  /** The handler: an uncertain broadcast stays submitted, anything else is retried or given up. */
  function Handled(config: Config, p: Progress): Progress {
    if p.stop.None? || p.stop.value.Uncaught? then p else
    var stop := p.stop.value;
    var uncertain := p.broadcastAttempted && (stop.kind.Transport? || stop.kind.Http?);
    var status := if uncertain then Submitted
                  else if p.job.retryCount >= config.maximumRetries then Failed else Pending;
    p.Saved(p.job.(errorMessage := stop.text, status := status)).(stop := None)
  }

  /** A retry is counted before anything else. */
  function Started(job: TxJob, retry: bool): Progress {
    Idle(if retry then job.(retryCount := job.retryCount + 1) else job)
  }

  /** The straight-line part: nonce, gas, fees. */
  function Prepared(job: TxJob, retry: bool, highest: Option<Word>, rpc: Replies): (p: Progress)
    ensures p.stop.None? ==> IsPrepared(p.job)
  {
    WithFees(WithGas(WithNonce(Started(job, retry), highest, rpc), rpc), retry, rpc)
  }

  function Attempted(job: TxJob, retry: bool, highest: Option<Word>, rpc: Replies): Progress {
    Broadcast(Signed(Prepared(job, retry, highest, rpc), rpc), rpc)
  }

  const REJECTED := "transaction rejected by approval policy"
  const RETRY_LIMIT := "transaction retry limit reached"
  const REVERTED := "transaction execution reverted"
  const NOT_INCLUDED := "transaction was not included before the replacement limit"
  const NOT_CANONICAL := "included block is no longer canonical"

  function Idle(job: TxJob): Progress {
    Progress(job, [], false, None)
  }

  function Submit(config: Config, job: TxJob, retry: bool, highest: Option<Word>, rpc: Replies): Progress {
    if !IsApproved(config, job.call) then Idle(job).Saved(job.(status := Failed, errorMessage := REJECTED))
    else if retry && job.retryCount >= config.maximumRetries then
      Idle(job).Saved(job.(status := Failed, errorMessage := RETRY_LIMIT))
    else Handled(config, Attempted(job, retry, highest, rpc))
  }

  /** The submission height plus the waiting time, in 64-bit arithmetic. */
  predicate IsOverdue(config: Config, job: TxJob, head: nat) {
    job.submittedBlockNumber.Some? &&
    head >= (job.submittedBlockNumber.value + config.replacementAfterBlocks) % UINT64_MODULUS
  }

  function PollSubmitted(config: Config, job: TxJob, highest: Option<Word>, rpc: Replies): Progress {
    if !rpc.receipt.Answer? then Idle(job).(stop := Some(Uncaught)) else
    if rpc.receipt.value.Some? then
      var receipt := rpc.receipt.value.value;
      if receipt.blockNumber >= UINT64_MODULUS then Idle(job).(stop := Some(Uncaught)) else
      var found := job.(includedBlockNumber := Some(receipt.blockNumber), includedBlockHash := Some(receipt.blockHash));
      Idle(job).Saved(if receipt.succeeded then found.(status := Included)
                      else found.(status := Failed, errorMessage := REVERTED))
    else if !rpc.pollHead.Answer? then Idle(job).(stop := Some(Uncaught))
    else if !IsOverdue(config, job, rpc.pollHead.value) then Idle(job)
    else if job.retryCount >= config.maximumRetries then
      Idle(job).Saved(job.(status := Failed, errorMessage := NOT_INCLUDED))
    else Submit(config, job, true, highest, rpc)
  }

  function Confirmations(included: nat, head: nat): nat {
    if head >= included then (head - included + 1) % UINT64_MODULUS else 0
  }

  function PollIncluded(config: Config, job: TxJob, rpc: Replies): Progress
    requires job.includedBlockNumber.Some?
  {
    if !rpc.block.Answer? then Idle(job).(stop := Some(Uncaught)) else
    if rpc.block.value.None? || rpc.block.value != job.includedBlockHash then
      Idle(job).Saved(job.(status := Reorged, errorMessage := NOT_CANONICAL))
    else if !rpc.pollHead.Answer? then Idle(job).(stop := Some(Uncaught))
    else
      var count := Confirmations(job.includedBlockNumber.value, rpc.pollHead.value);
      Idle(job).Saved(job.(confirmationCount := count,
                           status := if count >= config.confirmationDepth then Finalized else Included))
  }

  /** Whether the optional fields that the manager reads without checking are there. */
  predicate IsReadable(job: TxJob) {
    && (job.status.Submitted? ==> job.transactionHash.Some?)
    && (job.status.Included? ==> job.includedBlockNumber.Some? && job.includedBlockHash.Some?)
  }

  function Poll(config: Config, job: TxJob, highest: Option<Word>, rpc: Replies): Progress
    requires IsReadable(job)
  {
    match job.status
    case Submitted => PollSubmitted(config, job, highest, rpc)
    case Included => PollIncluded(config, job, rpc)
    case _ => Idle(job)
  }

  function ProcessJob(config: Config, job: TxJob, highest: Option<Word>, rpc: Replies): Progress
    requires IsReadable(job)
  {
    if job.status.Pending? then Submit(config, job, job.errorMessage != "", highest, rpc)
    else Poll(config, job, highest, rpc)
  }

  // The table and the network --------------------------------------------------------------------

  /** A broadcast, with the job's row in the table at that moment. */
  datatype Sent = Sent(tx: Eip1559Transaction, row: TxJob)

  /** The job rows, and what was handed to the node for each job, in order. */
  datatype Book = Book(rows: map<JobId, TxJob>, sent: map<JobId, seq<Sent>>) {
    function History(id: JobId): seq<Sent> {
      if id in sent then sent[id] else []
    }
  }

  const EMPTY_BOOK := Book(map[], map[])

  /** An update names its row by id and leaves the account and the call columns alone. */
  function Apply(s: Book, id: JobId, effect: Effect): Book
    requires id in s.rows
  {
    match effect
    case Save(job) => s.(rows := s.rows[id := job.(account := s.rows[id].account, call := s.rows[id].call)])
    case Send(tx) => s.(sent := s.sent[id := s.History(id) + [Sent(tx, s.rows[id])]])
  }

  function ApplyAll(s: Book, id: JobId, effects: seq<Effect>): (r: Book)
    requires id in s.rows
    ensures r.rows.Keys == s.rows.Keys
  {
    if effects == [] then s else
    Apply(ApplyAll(s, id, effects[..|effects| - 1]), id, effects[|effects| - 1])
  }

  predicate IsActive(status: TxStatus) {
    status.Pending? || status.Submitted? || status.Included?
  }

  /** A nonce is released when its job fails or is reorganised away. */
  predicate HoldsNonce(job: TxJob) {
    job.nonce.Some? && !job.status.Failed? && !job.status.Reorged?
  }

  ghost predicate IsHighest(rows: map<JobId, TxJob>, account: Account, highest: Option<Word>) {
    && (forall id :: id in rows && rows[id].account == account && HoldsNonce(rows[id]) ==>
          highest.Some? && rows[id].nonce.value <= highest.value)
    && (highest.Some? ==>
          exists id :: id in rows && rows[id].account == account && HoldsNonce(rows[id])
                       && rows[id].nonce == highest)
  }

  lemma HighestIsUnique(rows: map<JobId, TxJob>, account: Account, a: Option<Word>, b: Option<Word>)
    requires IsHighest(rows, account, a) && IsHighest(rows, account, b)
    ensures a == b
  {
  }

  // Runs -------------------------------------------------------------------------------------

  /** A service queues a job, or the manager of an account processes one: the first `survived` effects happen,
      then the process dies, unless that is all of them. */
  datatype Action =
    | Insert(id: JobId, account: Account, call: Call)
    | Process(id: JobId, highest: Option<Word>, rpc: Replies, survived: nat)

  /** An action is possible when the manager's query gave the table's answer. */
  ghost predicate Enabled(s: Book, action: Action) {
    action.Process? && action.id in s.rows ==> IsHighest(s.rows, s.rows[action.id].account, action.highest)
  }

  function Next(configs: map<Account, Config>, s: Book, action: Action): Book {
    match action
    case Insert(id, account, call) => if id in s.rows then s else s.(rows := s.rows[id := Queued(account, call)])
    case Process(id, highest, rpc, survived) =>
      if id !in s.rows || s.rows[id].account !in configs then s else
      if !IsActive(s.rows[id].status) || !IsReadable(s.rows[id]) then s else
      var effects := ProcessJob(configs[s.rows[id].account], s.rows[id], highest, rpc).effects;
      ApplyAll(s, id, effects[..Min(survived, |effects|)])
  }

  function Run(configs: map<Account, Config>, s: Book, actions: seq<Action>): Book {
    if actions == [] then s else Next(configs, Run(configs, s, actions[..|actions| - 1]), actions[|actions| - 1])
  }

  ghost predicate AllEnabled(configs: map<Account, Config>, s: Book, actions: seq<Action>) {
    forall i :: 0 <= i < |actions| ==> Enabled(Run(configs, s, actions[..i]), actions[i])
  }
}
