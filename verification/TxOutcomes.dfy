/** What becomes of a transaction job, decided by the node's answers (TxManager.cpp). */
module TxOutcomes {
  import opened Results
  import opened FixedPoint
  import opened Transactions
  import opened TxJobs

  // Nonces -----------------------------------------------------------------------------------

  predicate IsFreeNonce(highest: Option<Word>, rpcNonce: Word, n: nat) {
    rpcNonce <= n && (highest.Some? ==> highest.value < n)
  }

  /** The allocated nonce is the least that the node accepts and no stored job holds; there is none exactly when the
      stored ones reach the last word. */
  lemma NonceIsLeast(highest: Option<Word>, rpcNonce: Word)
    ensures match AllocateNonce(highest, rpcNonce)
            case Some(n) => IsFreeNonce(highest, rpcNonce, n)
                            && forall k: nat :: IsFreeNonce(highest, rpcNonce, k) ==> n <= k
            case None => forall k: Word :: !IsFreeNonce(highest, rpcNonce, k)
  {
  }

  // Broadcasting -----------------------------------------------------------------------------

  /** The nonce the job has or is given. */
  ghost function NonceFor(job: TxJob, highest: Option<Word>, rpc: Replies): Option<Word> {
    if job.nonce.Some? then job.nonce else
    if rpc.pendingNonce.Answer? then AllocateNonce(highest, rpc.pendingNonce.value) else None
  }

  /** The fees of the attempt: nine eighths of the last ones for a replacement, and the node's quote otherwise. */
  ghost function FeesFor(job: TxJob, retry: bool, rpc: Replies): Option<Quote> {
    if retry && job.maxPriorityFeePerGas.Some? && job.maxFeePerGas.Some? then
      var priority, fee := Ceil(job.maxPriorityFeePerGas.value, 9, 8), Ceil(job.maxFeePerGas.value, 9, 8);
      if priority <= MAX_UINT256 && fee <= MAX_UINT256 then Some(Quote(priority, fee)) else None
    else if rpc.fees.Answer? then Some(rpc.fees.value) else None
  }

  ghost function GasFor(job: TxJob, rpc: Replies): Option<Word> {
    if job.gasLimit.Some? then job.gasLimit else if rpc.gas.Answer? then Some(rpc.gas.value) else None
  }

  /** Everything an attempt needs before it can be broadcast. */
  ghost predicate IsReady(job: TxJob, retry: bool, highest: Option<Word>, rpc: Replies) {
    && NonceFor(job, highest, rpc).Some? && GasFor(job, rpc).Some? && FeesFor(job, retry, rpc).Some?
    && rpc.submitHead.Answer?
  }

  /** The transaction of the attempt. */
  ghost function AttemptOf(job: TxJob, retry: bool, highest: Option<Word>, rpc: Replies): Eip1559Transaction
    requires IsReady(job, retry, highest, rpc)
  {
    var fees := FeesFor(job, retry, rpc).value;
    Eip1559Transaction(job.account.chainId, NonceFor(job, highest, rpc).value, fees.maxPriorityFeePerGas,
                       fees.maxFeePerGas, GasFor(job, rpc).value, Some(job.call.to), job.call.value, job.call.data)
  }

  predicate OnlySaves(effects: seq<Effect>) {
    forall i :: 0 <= i < |effects| ==> effects[i].Save?
  }

  lemma BumpInClosedForm(fee: Word)
    ensures BumpFee(fee) == if Ceil(fee, 9, 8) <= MAX_UINT256 then Success(Ceil(fee, 9, 8)) else Failure(Overflow)
  {
    assert Ceil(fee, 1_125, 1_000) == Ceil(fee, 9, 8) by {
      CeilBounds(fee, 9, 8);
      CeilBounds(fee, 1_125, 1_000);
    }
  }

  lemma FeesInClosedForm(p: Progress, retry: bool, rpc: Replies)
    requires OnlySaves(p.effects) && p.stop.None?
    ensures var q := WithFees(p, retry, rpc);
            && OnlySaves(q.effects) && q.broadcastAttempted == p.broadcastAttempted
            && q.job.account == p.job.account && q.job.call == p.job.call && q.job.retryCount == p.job.retryCount
            && q.job.nonce == p.job.nonce && q.job.gasLimit == p.job.gasLimit
            && (q.stop.None? <==> FeesFor(p.job, retry, rpc).Some?)
            && (q.stop.None? ==>
                  && q.job.maxPriorityFeePerGas == Some(FeesFor(p.job, retry, rpc).value.maxPriorityFeePerGas)
                  && q.job.maxFeePerGas == Some(FeesFor(p.job, retry, rpc).value.maxFeePerGas))
  {
    hide Ceil, BumpFee;
    if p.job.maxPriorityFeePerGas.Some? && p.job.maxFeePerGas.Some? {
      BumpInClosedForm(p.job.maxPriorityFeePerGas.value);
      BumpInClosedForm(p.job.maxFeePerGas.value);
    }
  }

  /** Preparing an attempt settles its nonce, gas and fees, or stops. */
  lemma PreparedInClosedForm(job: TxJob, retry: bool, highest: Option<Word>, rpc: Replies)
    ensures var p := Prepared(job, retry, highest, rpc);
            && OnlySaves(p.effects) && !p.broadcastAttempted
            && p.job.account == job.account && p.job.call == job.call
            && p.job.retryCount == job.retryCount + (if retry then 1 else 0)
            && (p.stop.None? <==>
                NonceFor(job, highest, rpc).Some? && GasFor(job, rpc).Some? && FeesFor(job, retry, rpc).Some?)
            && (p.stop.None? ==>
                  && p.job.nonce == NonceFor(job, highest, rpc) && p.job.gasLimit == GasFor(job, rpc)
                  && p.job.maxPriorityFeePerGas == Some(FeesFor(job, retry, rpc).value.maxPriorityFeePerGas)
                  && p.job.maxFeePerGas == Some(FeesFor(job, retry, rpc).value.maxFeePerGas))
  {
    hide AllocateNonce, Ceil, BumpFee;
    var p := WithGas(WithNonce(Started(job, retry), highest, rpc), rpc);
    assert FeesFor(p.job, retry, rpc) == FeesFor(job, retry, rpc);
    if p.stop.None? {
      hide WithFees, FeesFor;
      FeesInClosedForm(p, retry, rpc);
    }
  }

  /** The job cannot be attempted: its call is not approved, or its retries are used up. */
  predicate IsRefused(config: Config, job: TxJob, retry: bool) {
    !IsApproved(config, job.call) || (retry && job.retryCount >= config.maximumRetries)
  }

  /** These effects hand over exactly this transaction, once. */
  ghost predicate SendsOnce(effects: seq<Effect>, tx: Eip1559Transaction) {
    exists k :: && 0 <= k < |effects| && effects[k] == Send(tx)
                && forall i :: 0 <= i < |effects| && i != k ==> effects[i].Save?
  }

  /** An attempt hands its transaction to the node exactly once if it is ready, and not at all if it is not. */
  lemma AttemptSends(config: Config, job: TxJob, retry: bool, highest: Option<Word>, rpc: Replies)
    ensures var effects := Submit(config, job, retry, highest, rpc).effects;
            if !IsRefused(config, job, retry) && IsReady(job, retry, highest, rpc)
            then SendsOnce(effects, AttemptOf(job, retry, highest, rpc))
            else OnlySaves(effects)
  {
    hide Prepared, IsApproved, NonceFor, GasFor, FeesFor;
    PreparedInClosedForm(job, retry, highest, rpc);
    if !IsRefused(config, job, retry) && IsReady(job, retry, highest, rpc) {
      var signed := Signed(Prepared(job, retry, highest, rpc), rpc);
      var effects := Submit(config, job, retry, highest, rpc).effects;
      assert effects[|signed.effects|] == Send(AttemptOf(job, retry, highest, rpc));
    }
  }

  /** Where a ready attempt leaves the job: submitted under the hash the node gave, or, when the node may have
      received the transaction all the same, under the hash it was signed with; only when the node refused it is the
      job back in the queue, or given up after the last retry. */
  lemma AttemptOutcome(config: Config, job: TxJob, retry: bool, highest: Option<Word>, rpc: Replies)
    requires !IsRefused(config, job, retry) && IsReady(job, retry, highest, rpc)
    ensures var p := Submit(config, job, retry, highest, rpc);
            var tries := job.retryCount + (if retry then 1 else 0);
            && p.job.rawTransaction == Some(AttemptOf(job, retry, highest, rpc)) && p.job.retryCount == tries
            && p.job.submittedBlockNumber == Some(rpc.submitHead.value)
            && match rpc.send
               case Answer(hash) =>
                 && p.stop.None? && p.job.status == Submitted && p.job.transactionHash == Some(hash)
                 && p.job.errorMessage == ""
               case Raised(kind, text) =>
                 && p.stop.None? && p.job.transactionHash == Some(rpc.signedHash) && p.job.errorMessage == text
                 && p.job.status == (if kind != Protocol then Submitted
                                     else if tries >= config.maximumRetries then Failed else Pending)
               case Aborted => p.stop == Some(Uncaught) && p.job.status == Submitted
  {
    hide Prepared, IsApproved, NonceFor, GasFor, FeesFor;
    PreparedInClosedForm(job, retry, highest, rpc);
  }

  /** A job that must not be attempted fails at once, with the reason. */
  lemma RefusedOutcome(config: Config, job: TxJob, retry: bool, highest: Option<Word>, rpc: Replies)
    requires IsRefused(config, job, retry)
    ensures var p := Submit(config, job, retry, highest, rpc);
            && p.effects == [Save(p.job)] && p.stop.None?
            && p.job == job.(status := Failed,
                             errorMessage := if IsApproved(config, job.call) then "transaction retry limit reached"
                                             else "transaction rejected by approval policy")
  {
    hide IsApproved;
  }

  /** An attempt that cannot be made ready is counted all the same, and the job goes back to the queue or fails after
      the last retry; anything but an exception of the node's ends the run. */
  lemma UnreadyOutcome(config: Config, job: TxJob, retry: bool, highest: Option<Word>, rpc: Replies)
    requires !IsRefused(config, job, retry) && !IsReady(job, retry, highest, rpc)
    ensures var p := Submit(config, job, retry, highest, rpc);
            var tries := job.retryCount + (if retry then 1 else 0);
            && p.job.retryCount == tries && (p.stop.Some? ==> p.stop == Some(Uncaught))
            && (p.stop.None? ==> p.job.status == if tries >= config.maximumRetries then Failed else Pending)
  {
    hide Prepared, IsApproved, NonceFor, GasFor, FeesFor;
    PreparedInClosedForm(job, retry, highest, rpc);
  }

  // Waiting for a submitted job ------------------------------------------------------------------

  /** The waiting time is over, in 64-bit arithmetic. */
  predicate HasWaited(config: Config, job: TxJob, head: nat) {
    && job.submittedBlockNumber.Some?
    && (job.submittedBlockNumber.value + config.replacementAfterBlocks) % 0x1_0000_0000_0000_0000 <= head
  }

  /** A submitted job is included by a successful receipt and fails by a reverted one, both at the receipt's block;
      without a receipt it waits, and when the waiting time is over it is replaced, or given up after the last retry.
      Any failed read leaves it as it is. */
  lemma SubmittedOutcome(config: Config, job: TxJob, highest: Option<Word>, rpc: Replies)
    requires job.status.Submitted? && IsReadable(job)
    ensures var p := ProcessJob(config, job, highest, rpc);
            match rpc.receipt
            case Answer(Some(receipt)) =>
              if receipt.blockNumber > MAX_UINT64 then p.effects == [] && p.job == job && p.stop == Some(Uncaught) else
              && p.effects == [Save(p.job)] && p.stop.None?
              && p.job == job.(status := if receipt.succeeded then Included else Failed,
                               includedBlockNumber := Some(receipt.blockNumber),
                               includedBlockHash := Some(receipt.blockHash),
                               errorMessage := if receipt.succeeded then job.errorMessage
                                               else "transaction execution reverted")
            case Answer(None) =>
              if !rpc.pollHead.Answer? then p.effects == [] && p.job == job && p.stop == Some(Uncaught)
              else if !HasWaited(config, job, rpc.pollHead.value) then p.effects == [] && p.job == job && p.stop.None?
              else if job.retryCount >= config.maximumRetries then
                && p.effects == [Save(p.job)] && p.stop.None? && p.job.status == Failed
                && p.job.errorMessage == "transaction was not included before the replacement limit"
              else p == Submit(config, job, true, highest, rpc)
            case _ => p.effects == [] && p.job == job && p.stop == Some(Uncaught)
  {
    hide Submit;
  }

  /** An included job is given up when its block is gone, and otherwise counts the blocks from its own to the head, in
      64-bit arithmetic, and is final at the configured depth; a failed read leaves it as it is. */
  lemma IncludedOutcome(config: Config, job: TxJob, highest: Option<Word>, rpc: Replies)
    requires job.status.Included? && IsReadable(job)
    ensures var p := ProcessJob(config, job, highest, rpc);
            if !rpc.block.Answer? then p.effects == [] && p.job == job && p.stop == Some(Uncaught)
            else if rpc.block.value != job.includedBlockHash then
              && p.effects == [Save(p.job)] && p.stop.None?
              && p.job == job.(status := Reorged, errorMessage := "included block is no longer canonical")
            else if !rpc.pollHead.Answer? then p.effects == [] && p.job == job && p.stop == Some(Uncaught)
            else
              var included, head := job.includedBlockNumber.value, rpc.pollHead.value;
              var depth := if head < included then 0 else (head + 1 - included) % 0x1_0000_0000_0000_0000;
              && p.effects == [Save(p.job)] && p.stop.None?
              && p.job == job.(confirmationCount := depth,
                               status := if depth < config.confirmationDepth then Included else Finalized)
  {
  }
}
