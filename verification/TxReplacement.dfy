/** Bounded, escalating replacement: how often, and with which fees, a job is broadcast in any run. */
module TxReplacement {
  import opened Results
  import opened FixedPoint
  import opened Transactions
  import opened TxJobs
  import opened TxSafety

  /** Bumping by 1125/1000 and rounding up is exactly nine eighths, rounded up. */
  lemma BumpIsNineEighths(fee: Word)
    ensures Ceil(fee, 1_125, 1_000) == Ceil(fee, 9, 8) >= fee
    ensures BumpFee(fee).Success? ==> BumpFee(fee).value == Ceil(fee, 9, 8) <= MAX_UINT256
  {
    hide Ceil;
    CeilBounds(fee, 9, 8);
    CeilLeast(fee, 1_125, 1_000, Ceil(fee, 9, 8));
    CeilBounds(fee, 1_125, 1_000);
    CeilLeast(fee, 9, 8, Ceil(fee, 1_125, 1_000));
  }

  /** Bumping keeps the order that EIP-1559 demands of the two fees. */
  lemma BumpKeepsOrder(priority: Word, fee: Word)
    requires priority <= fee
    ensures Ceil(priority, 9, 8) <= Ceil(fee, 9, 8)
  {
    CeilMono(priority, 9, fee, 9, 8);
  }

  // The job's row against its broadcasts ---------------------------------------------------------

  /** How many broadcasts a row accounts for: none before the first attempt, then one more than its retries. */
  function Allowance(job: TxJob): nat {
    if job.status.Pending? && job.errorMessage == "" then 0 else job.retryCount + 1
  }

  /** Both fees of each broadcast are at least nine eighths of every earlier one. */
  ghost predicate Escalates(history: seq<Sent>) {
    forall i, j :: 0 <= i < j < |history| ==>
      Outbids(history[i].tx, history[j].tx.maxPriorityFeePerGas, history[j].tx.maxFeePerGas)
  }

  ghost predicate Outbids(tx: Eip1559Transaction, priority: nat, fee: nat) {
    Ceil(tx.maxPriorityFeePerGas, 9, 8) <= priority && Ceil(tx.maxFeePerGas, 9, 8) <= fee
  }

  predicate HasFees(job: TxJob) {
    job.maxPriorityFeePerGas.Some? && job.maxFeePerGas.Some?
  }

  /** The fees on record are there together, and are at least those of every broadcast. */
  ghost predicate Covers(priority: Option<Word>, fee: Option<Word>, history: seq<Sent>) {
    && (priority.Some? <==> fee.Some?)
    && (history != [] ==> priority.Some?)
    && forall i :: 0 <= i < |history| ==>
         history[i].tx.maxPriorityFeePerGas <= priority.value && history[i].tx.maxFeePerGas <= fee.value
  }

  ghost predicate OutbidsAll(priority: Option<Word>, fee: Option<Word>, history: seq<Sent>) {
    && priority.Some? && fee.Some?
    && forall i :: 0 <= i < |history| ==> Outbids(history[i].tx, priority.value, fee.value)
  }

  /** The EIP-1559 rule, on the fees on record and on every broadcast. */
  ghost predicate Ordered(priority: Option<Word>, fee: Option<Word>, history: seq<Sent>) {
    && (priority.Some? && fee.Some? ==> priority.value <= fee.value)
    && forall i :: 0 <= i < |history| ==> history[i].tx.maxPriorityFeePerGas <= history[i].tx.maxFeePerGas
  }

  /** Everything but the count; `ordered` says whether the node's quotes obey EIP-1559. */
  ghost predicate FeesInLine(limit: nat, ordered: bool, job: TxJob, history: seq<Sent>) {
    && job.retryCount <= limit
    && Covers(job.maxPriorityFeePerGas, job.maxFeePerGas, history)
    && Escalates(history)
    && (ordered ==> Ordered(job.maxPriorityFeePerGas, job.maxFeePerGas, history))
  }

  ghost predicate InLine(limit: nat, ordered: bool, job: TxJob, history: seq<Sent>) {
    FeesInLine(limit, ordered, job, history) && |history| <= Allowance(job)
  }

  /** The broadcasts of a job after some effects of processing it. */
  function HistoryAfter(row: TxJob, history: seq<Sent>, effects: seq<Effect>): seq<Sent> {
    if effects == [] then history else
    var before := effects[..|effects| - 1];
    match effects[|effects| - 1]
    case Save(_) => HistoryAfter(row, history, before)
    case Send(tx) => HistoryAfter(row, history, before) + [Sent(tx, RowAfter(row, before))]
  }

  ghost predicate InLineThroughout(limit: nat, ordered: bool, row: TxJob, history: seq<Sent>, effects: seq<Effect>) {
    forall k :: 0 <= k <= |effects| ==>
      InLine(limit, ordered, RowAfter(row, effects[..k]), HistoryAfter(row, history, effects[..k]))
  }

  lemma StartsInLine(limit: nat, ordered: bool, row: TxJob, history: seq<Sent>)
    requires InLine(limit, ordered, row, history)
    ensures InLineThroughout(limit, ordered, row, history, []) && HistoryAfter(row, history, []) == history
    ensures RowAfter(row, []) == row
  {
    hide InLine;
  }

  lemma {:induction false} StaysInLine(limit: nat, ordered: bool, row: TxJob, history: seq<Sent>,
                                       effects: seq<Effect>, effect: Effect)
    requires InLineThroughout(limit, ordered, row, history, effects)
    requires InLine(limit, ordered, if effect.Save? then effect.job else RowAfter(row, effects),
                    if effect.Save? then HistoryAfter(row, history, effects)
                    else HistoryAfter(row, history, effects) + [Sent(effect.tx, RowAfter(row, effects))])
    ensures InLineThroughout(limit, ordered, row, history, effects + [effect])
    ensures RowAfter(row, effects + [effect]) == if effect.Save? then effect.job else RowAfter(row, effects)
    ensures HistoryAfter(row, history, effects + [effect]) ==
              if effect.Save? then HistoryAfter(row, history, effects)
              else HistoryAfter(row, history, effects) + [Sent(effect.tx, RowAfter(row, effects))]
  {
    hide InLine;
    var longer := effects + [effect];
    assert longer[..|effects|] == effects && longer[..|longer|] == longer;
    forall k | 0 <= k <= |longer|
      ensures InLine(limit, ordered, RowAfter(row, longer[..k]), HistoryAfter(row, history, longer[..k]))
    {
      if k <= |effects| {
        assert longer[..k] == effects[..k];
      }
    }
  }

  // Submitting -------------------------------------------------------------------------------

  predicate HasText<T>(reply: Reply<T>) {
    reply.Raised? ==> reply.text != ""
  }

  /** RPC exceptions carry a text, which the manager uses as its retry flag. */
  predicate HasErrorTexts(rpc: Replies) {
    HasText(rpc.pendingNonce) && HasText(rpc.gas) && HasText(rpc.fees) && HasText(rpc.submitHead) && HasText(rpc.send)
  }

  /** Without retries the flag is never looked at. */
  predicate TextsSuffice(limit: nat, rpc: Replies) {
    limit == 0 || HasErrorTexts(rpc)
  }

  predicate QuotesInOrder(rpc: Replies) {
    rpc.fees.Answer? ==> rpc.fees.value.maxPriorityFeePerGas <= rpc.fees.value.maxFeePerGas
  }

  /** A job in memory before its broadcast: room for one more, and nothing sent yet in this attempt. */
  ghost predicate Room(limit: nat, ordered: bool, row: TxJob, history: seq<Sent>, p: Progress) {
    && InLineThroughout(limit, ordered, row, history, p.effects)
    && HistoryAfter(row, history, p.effects) == history
    && FeesInLine(limit, ordered, p.job, history)
    && |history| <= p.job.retryCount
    && !p.broadcastAttempted
    && (p.stop.Some? && p.stop.value.Caught? ==> limit == 0 || p.stop.value.text != "")
  }

  /** A change of anything but fees and count, without an effect, keeps the room. */
  lemma KeepsRoom(limit: nat, ordered: bool, row: TxJob, history: seq<Sent>, p: Progress, q: Progress)
    requires Room(limit, ordered, row, history, p)
    requires q.effects == p.effects && !q.broadcastAttempted && q.job.retryCount == p.job.retryCount
    requires q.job.maxPriorityFeePerGas == p.job.maxPriorityFeePerGas && q.job.maxFeePerGas == p.job.maxFeePerGas
    requires q.stop.Some? && q.stop.value.Caught? ==> limit == 0 || q.stop.value.text != ""
    ensures Room(limit, ordered, row, history, q)
  {
    hide InLineThroughout, RowAfter, HistoryAfter, FeesInLine;
    RetriesInLine(limit, ordered, p.job, history);
    SameFees(limit, ordered, p.job, q.job, history);
  }

  lemma PreparedHasRoom(limit: nat, ordered: bool, row: TxJob, history: seq<Sent>, retry: bool, highest: Option<Word>,
                        rpc: Replies)
    requires InLine(limit, ordered, row, history) && TextsSuffice(limit, rpc) && (ordered ==> QuotesInOrder(rpc))
    requires if retry then row.retryCount < limit else Allowance(row) == 0
    ensures var p := Prepared(row, retry, highest, rpc);
            && Room(limit, ordered, row, history, p)
            && (p.stop.None? ==> OutbidsAll(p.job.maxPriorityFeePerGas, p.job.maxFeePerGas, history))
  {
    hide InLineThroughout, RowAfter, HistoryAfter, FeesInLine, AllocateNonce, WithFees, OutbidsAll, QuotesInOrder;
    StartsInLine(limit, ordered, row, history);
    RetriesInLine(limit, ordered, row, history);
    var started := Started(row, retry);
    SameFees(limit, ordered, row, started.job, history);
    assert Room(limit, ordered, row, history, started);
    var p1 := WithNonce(started, highest, rpc);
    KeepsRoom(limit, ordered, row, history, started, p1);
    var p2 := WithGas(p1, rpc);
    KeepsRoom(limit, ordered, row, history, p1, p2);
    FeesHaveRoom(limit, ordered, row, history, p2, retry, rpc);
  }

  lemma FeesHaveRoom(limit: nat, ordered: bool, row: TxJob, history: seq<Sent>, p: Progress, retry: bool, rpc: Replies)
    requires Room(limit, ordered, row, history, p) && TextsSuffice(limit, rpc) && (ordered ==> QuotesInOrder(rpc))
    requires !retry ==> history == []
    ensures var q := WithFees(p, retry, rpc);
            && Room(limit, ordered, row, history, q)
            && (q.stop.None? ==> OutbidsAll(q.job.maxPriorityFeePerGas, q.job.maxFeePerGas, history))
  {
    hide InLineThroughout, RowAfter, HistoryAfter, FeesInLine, OutbidsAll, BumpFee;
    RetriesInLine(limit, ordered, p.job, history);
    if p.stop.Some? {
    } else if IsReplacement(p.job, retry) {
      var next := p.job.(status := Replaced);
      SameFees(limit, ordered, p.job, next, history);
      StaysInLine(limit, ordered, row, history, p.effects, Save(next));
      if BumpFee(next.maxPriorityFeePerGas.value).Success? && BumpFee(next.maxFeePerGas.value).Success? {
        BumpOutbids(limit, ordered, next, history);
      }
    } else if rpc.fees.Answer? {
      QuoteInLine(limit, ordered, p.job, WithFees(p, retry, rpc).job);
    }
  }

  lemma BumpOutbids(limit: nat, ordered: bool, job: TxJob, history: seq<Sent>)
    requires FeesInLine(limit, ordered, job, history) && HasFees(job)
    requires BumpFee(job.maxPriorityFeePerGas.value).Success? && BumpFee(job.maxFeePerGas.value).Success?
    ensures var bumped := job.(maxPriorityFeePerGas := Some(BumpFee(job.maxPriorityFeePerGas.value).value),
                               maxFeePerGas := Some(BumpFee(job.maxFeePerGas.value).value));
            FeesInLine(limit, ordered, bumped, history) && OutbidsAll(bumped.maxPriorityFeePerGas,
                       bumped.maxFeePerGas, history)
  {
    hide Ceil, Escalates, BumpFee;
    var priority, fee := job.maxPriorityFeePerGas.value, job.maxFeePerGas.value;
    BumpIsNineEighths(priority);
    BumpIsNineEighths(fee);
    if priority <= fee {
      BumpKeepsOrder(priority, fee);
    }
    forall i | 0 <= i < |history|
      ensures Outbids(history[i].tx, Ceil(priority, 9, 8), Ceil(fee, 9, 8))
    {
      CeilMono(history[i].tx.maxPriorityFeePerGas, 9, priority, 9, 8);
      CeilMono(history[i].tx.maxFeePerGas, 9, fee, 9, 8);
    }
    var bumped := job.(maxPriorityFeePerGas := Some(BumpFee(priority).value), maxFeePerGas := Some(BumpFee(fee).value));
    assert Covers(bumped.maxPriorityFeePerGas, bumped.maxFeePerGas, history);
    assert ordered ==> Ordered(bumped.maxPriorityFeePerGas, bumped.maxFeePerGas, history);
    assert OutbidsAll(bumped.maxPriorityFeePerGas, bumped.maxFeePerGas, history);
  }

  /** A job that was never broadcast takes any quote. */
  lemma QuoteInLine(limit: nat, ordered: bool, job: TxJob, next: TxJob)
    requires FeesInLine(limit, ordered, job, []) && next.retryCount == job.retryCount && HasFees(next)
    requires ordered ==> next.maxPriorityFeePerGas.value <= next.maxFeePerGas.value
    ensures FeesInLine(limit, ordered, next, []) && OutbidsAll(next.maxPriorityFeePerGas, next.maxFeePerGas, [])
  {
  }

  /** After the straight-line code, broadcast or not. */
  ghost predicate AfterAttempt(limit: nat, ordered: bool, row: TxJob, history: seq<Sent>, p: Progress) {
    var sent := HistoryAfter(row, history, p.effects);
    && InLineThroughout(limit, ordered, row, history, p.effects)
    && FeesInLine(limit, ordered, p.job, sent)
    && |sent| <= p.job.retryCount + 1
    && (p.stop.Some? && p.stop.value.Caught? ==> limit == 0 || p.stop.value.text != "")
  }

  lemma AttemptInLine(limit: nat, ordered: bool, row: TxJob, history: seq<Sent>, retry: bool, highest: Option<Word>,
                      rpc: Replies)
    requires InLine(limit, ordered, row, history) && TextsSuffice(limit, rpc) && (ordered ==> QuotesInOrder(rpc))
    requires if retry then row.retryCount < limit else Allowance(row) == 0
    ensures AfterAttempt(limit, ordered, row, history, Attempted(row, retry, highest, rpc))
  {
    hide InLineThroughout, RowAfter, HistoryAfter, FeesInLine, Prepared, OutbidsAll;
    PreparedHasRoom(limit, ordered, row, history, retry, highest, rpc);
    var p := Prepared(row, retry, highest, rpc);
    RetriesInLine(limit, ordered, p.job, history);
    if p.stop.None? {
      SameFees(limit, ordered, p.job, Signed(p, rpc).job, history);
    }
    if p.stop.None? && rpc.submitHead.Answer? {
      var q := Signed(p, rpc);
      StaysInLine(limit, ordered, row, history, p.effects, Save(q.job));
      var tx := q.job.rawTransaction.value;
      SendInLine(limit, ordered, q.job, history, tx);
      StaysInLine(limit, ordered, row, history, q.effects, Send(tx));
      if rpc.send.Answer? {
        var done := q.job.(transactionHash := Some(rpc.send.value));
        SameFees(limit, ordered, q.job, done, history + [Sent(tx, q.job)]);
        StaysInLine(limit, ordered, row, history, q.effects + [Send(tx)], Save(done));
      }
    }
  }

  lemma SendInLine(limit: nat, ordered: bool, job: TxJob, history: seq<Sent>, tx: Eip1559Transaction)
    requires FeesInLine(limit, ordered, job, history) && OutbidsAll(job.maxPriorityFeePerGas, job.maxFeePerGas, history)
    requires tx.maxPriorityFeePerGas == job.maxPriorityFeePerGas.value && tx.maxFeePerGas == job.maxFeePerGas.value
    ensures FeesInLine(limit, ordered, job, history + [Sent(tx, job)])
  {
  }

  lemma SubmitInLine(config: Config, ordered: bool, row: TxJob, history: seq<Sent>, retry: bool,
                     highest: Option<Word>, rpc: Replies)
    requires InLine(config.maximumRetries, ordered, row, history)
    requires TextsSuffice(config.maximumRetries, rpc) && (ordered ==> QuotesInOrder(rpc))
    requires !retry ==> Allowance(row) == 0
    ensures InLineThroughout(config.maximumRetries, ordered, row, history,
                             Submit(config, row, retry, highest, rpc).effects)
  {
    hide InLineThroughout, RowAfter, HistoryAfter, FeesInLine, Attempted;
    var limit := config.maximumRetries;
    StartsInLine(limit, ordered, row, history);
    var p := Submit(config, row, retry, highest, rpc);
    if !IsApproved(config, row.call) || (retry && row.retryCount >= limit) {
      StepInLine(limit, ordered, row, history, p.job);
    } else {
      AttemptInLine(limit, ordered, row, history, retry, highest, rpc);
      var q := Attempted(row, retry, highest, rpc);
      if p != q {
        RetriesInLine(limit, ordered, q.job, HistoryAfter(row, history, q.effects));
        SameFees(limit, ordered, q.job, p.job, HistoryAfter(row, history, q.effects));
        StaysInLine(limit, ordered, row, history, q.effects, Save(p.job));
      }
    }
  }

  lemma SameFees(limit: nat, ordered: bool, job: TxJob, next: TxJob, history: seq<Sent>)
    requires FeesInLine(limit, ordered, job, history) && next.retryCount <= limit
    requires next.maxPriorityFeePerGas == job.maxPriorityFeePerGas && next.maxFeePerGas == job.maxFeePerGas
    ensures FeesInLine(limit, ordered, next, history)
  {
  }

  /** Saving a changed status, with fees and count untouched, stays in line. */
  lemma StepInLine(limit: nat, ordered: bool, row: TxJob, history: seq<Sent>, next: TxJob)
    requires InLine(limit, ordered, row, history) && next.retryCount == row.retryCount && !next.status.Pending?
    requires next.maxPriorityFeePerGas == row.maxPriorityFeePerGas && next.maxFeePerGas == row.maxFeePerGas
    ensures InLineThroughout(limit, ordered, row, history, Idle(row).Saved(next).effects)
  {
    hide InLineThroughout, RowAfter, HistoryAfter, FeesInLine;
    StartsInLine(limit, ordered, row, history);
    assert next.retryCount <= limit by { RetriesInLine(limit, ordered, row, history); }
    SameFees(limit, ordered, row, next, history);
    StaysInLine(limit, ordered, row, history, [], Save(next));
  }

  lemma RetriesInLine(limit: nat, ordered: bool, row: TxJob, history: seq<Sent>)
    requires FeesInLine(limit, ordered, row, history)
    ensures row.retryCount <= limit
    ensures !HasFees(row) ==> history == []
  {
  }

  lemma ProcessInLine(config: Config, ordered: bool, row: TxJob, history: seq<Sent>, highest: Option<Word>,
                      rpc: Replies)
    requires InLine(config.maximumRetries, ordered, row, history)
    requires TextsSuffice(config.maximumRetries, rpc) && (ordered ==> QuotesInOrder(rpc))
    requires IsReadable(row) && IsActive(row.status)
    ensures InLineThroughout(config.maximumRetries, ordered, row, history,
                             ProcessJob(config, row, highest, rpc).effects)
  {
    hide InLineThroughout, InLine, Submit, IsOverdue, Confirmations;
    StartsInLine(config.maximumRetries, ordered, row, history);
    if row.status.Pending? {
      SubmitInLine(config, ordered, row, history, row.errorMessage != "", highest, rpc);
    } else {
      SubmitInLine(config, ordered, row, history, true, highest, rpc);
      var p := ProcessJob(config, row, highest, rpc);
      if p == Idle(row).Saved(p.job) && !p.job.status.Pending? && p.job.retryCount == row.retryCount
         && p.job.maxPriorityFeePerGas == row.maxPriorityFeePerGas && p.job.maxFeePerGas == row.maxFeePerGas {
        StepInLine(config.maximumRetries, ordered, row, history, p.job);
      }
    }
  }

  // Every run --------------------------------------------------------------------------------

  function Limit(configs: map<Account, Config>, account: Account): nat {
    if account in configs then configs[account].maximumRetries else 0
  }

  /** The node's exceptions carry a text, or no manager retries. */
  ghost predicate GivenTexts(configs: map<Account, Config>, action: Action) {
    action.Process? ==> HasErrorTexts(action.rpc) || forall a :: a in configs ==> configs[a].maximumRetries == 0
  }

  ghost predicate AllInLine(configs: map<Account, Config>, ordered: bool, s: Book) {
    && (forall id :: id in s.rows ==> InLine(Limit(configs, s.rows[id].account), ordered, s.rows[id], s.History(id)))
    && (forall id :: id in s.sent ==> id in s.rows)
  }

  lemma {:induction false} EffectsOnBook(s: Book, id: JobId, effects: seq<Effect>, highest: Option<Word>, n: nat)
    requires NonceSafe(s) && Bounds(s.rows, id, highest) && n <= |effects|
    requires LegalChain(highest, s.rows[id], effects)
    ensures var t := ApplyAll(s, id, effects[..n]);
            && t.History(id) == HistoryAfter(s.rows[id], s.History(id), effects[..n])
            && t.sent.Keys <= s.sent.Keys + {id}
            && forall a :: a != id ==> t.History(a) == s.History(a)
  {
    hide NonceSafe, Bounds, LegalChain, RowAfter;
    if n > 0 {
      EffectsOnBook(s, id, effects, highest, n - 1);
      LegalChainKeepsNonces(s, id, effects, highest, n - 1);
      assert effects[..n][..n - 1] == effects[..n - 1];
    }
  }

  lemma ProcessedInLine(configs: map<Account, Config>, ordered: bool, s: Book, action: Action)
    requires action.Process? && action.id in s.rows && s.rows[action.id].account in configs
    requires NonceSafe(s) && Enabled(s, action) && IsActive(s.rows[action.id].status)
    requires AllInLine(configs, ordered, s) && GivenTexts(configs, action) && (ordered ==> QuotesInOrder(action.rpc))
    ensures var t := Next(configs, s, action);
            && t.rows.Keys == s.rows.Keys && t.sent.Keys <= s.sent.Keys + {action.id}
            && t.rows[action.id].account == s.rows[action.id].account
            && InLine(configs[s.rows[action.id].account].maximumRetries, ordered, t.rows[action.id],
                      t.History(action.id))
            && forall a :: a in s.rows && a != action.id ==> t.rows[a] == s.rows[a] && t.History(a) == s.History(a)
  {
    hide ProcessJob, LegalChain, NonceSafe, ApplyAll, Bounds, IsHighest, InLine, RowAfter, HistoryAfter, LegalEffect,
         Extends;
    var id, highest, rpc := action.id, action.highest, action.rpc;
    var row, history := s.rows[id], s.History(id);
    assert RowOk(row) by { SafeRow(s, id); }
    var config := configs[row.account];
    var effects := ProcessJob(config, row, highest, rpc).effects;
    var n := Min(action.survived, |effects|);
    HighestBounds(s.rows, id, highest);
    ProcessIsLegal(config, row, highest, rpc);
    LegalChainKeepsNonces(s, id, effects, highest, n);
    EffectsOnBook(s, id, effects, highest, n);
    ProcessInLine(config, ordered, row, history, highest, rpc);
    assert InLine(config.maximumRetries, ordered, RowAfter(row, effects[..n]),
                  HistoryAfter(row, history, effects[..n]));
    var t := Next(configs, s, action);
    assert t.rows[id].account == row.account by {
      LegalChainExtends(s, id, effects, highest, n);
      ExtendsKeepsAccount(s, t, id);
    }
  }

  lemma SafeRow(s: Book, id: JobId)
    requires NonceSafe(s) && id in s.rows
    ensures RowOk(s.rows[id])
  {
  }

  lemma ExtendsKeepsAccount(s: Book, t: Book, id: JobId)
    requires Extends(s, t) && id in s.rows
    ensures id in t.rows && t.rows[id].account == s.rows[id].account
  {
  }

  lemma NextInLine(configs: map<Account, Config>, ordered: bool, s: Book, action: Action)
    requires NonceSafe(s) && Enabled(s, action) && AllInLine(configs, ordered, s)
    requires action.Process? ==> GivenTexts(configs, action) && (ordered ==> QuotesInOrder(action.rpc))
    ensures AllInLine(configs, ordered, Next(configs, s, action))
  {
    hide NonceSafe, Enabled, InLine, GivenTexts, ApplyAll, ProcessJob;
    if action.Process? {
      if action.id in s.rows && s.rows[action.id].account in configs && IsActive(s.rows[action.id].status) {
        hide Next;
        ProcessedInLine(configs, ordered, s, action);
      }
    } else if action.id !in s.rows {
      QueuedInLine(Limit(configs, action.account), ordered, action.account, action.call);
      assert Next(configs, s, action).History(action.id) == [];
    }
  }

  lemma QueuedInLine(limit: nat, ordered: bool, account: Account, call: Call)
    ensures InLine(limit, ordered, Queued(account, call), [])
  {
  }

  /** In every run whose RPC exceptions carry a text, or without retries, crashing anywhere: a job is broadcast at
      most once more than the configured retries, every broadcast has the same nonce, each outbids every earlier
      one by nine eighths on both fees, and if the node's quotes obey EIP-1559, so does every broadcast. */
  lemma {:induction false} BoundedReplacement(configs: map<Account, Config>, ordered: bool, actions: seq<Action>)
    requires AllEnabled(configs, EMPTY_BOOK, actions)
    requires forall a :: a in actions && a.Process? ==> GivenTexts(configs, a) && (ordered ==> QuotesInOrder(a.rpc))
    ensures var s := Run(configs, EMPTY_BOOK, actions);
            && AllInLine(configs, ordered, s)
            && forall id :: id in s.sent ==>
                 && id in s.rows
                 && |s.sent[id]| <= Limit(configs, s.rows[id].account) + 1
                 && Escalates(s.sent[id])
                 && (forall i, j :: 0 <= i < |s.sent[id]| && 0 <= j < |s.sent[id]| ==>
                       s.sent[id][i].tx.nonce == s.sent[id][j].tx.nonce)
                 && (ordered ==> forall i :: 0 <= i < |s.sent[id]| ==>
                       s.sent[id][i].tx.maxPriorityFeePerGas <= s.sent[id][i].tx.maxFeePerGas)
  {
    if actions != [] {
      hide NonceSafe, Enabled, Next, AllInLine;
      var n := |actions| - 1;
      EnabledPrefix(configs, EMPTY_BOOK, actions, n);
      BoundedReplacement(configs, ordered, actions[..n]);
      NonceSafety(configs, actions[..n]);
      assert actions[n] in actions;
      NextInLine(configs, ordered, Run(configs, EMPTY_BOOK, actions[..n]), actions[n]);
    } else {
      assert AllInLine(configs, ordered, EMPTY_BOOK);
    }
    NonceSafety(configs, actions);
    ReplacementMeaning(configs, ordered, Run(configs, EMPTY_BOOK, actions));
  }

  lemma ReplacementMeaning(configs: map<Account, Config>, ordered: bool, s: Book)
    requires NonceSafe(s) && AllInLine(configs, ordered, s)
    ensures forall id :: id in s.sent ==>
              && id in s.rows
              && |s.sent[id]| <= Limit(configs, s.rows[id].account) + 1
              && Escalates(s.sent[id])
              && (forall i, j :: 0 <= i < |s.sent[id]| && 0 <= j < |s.sent[id]| ==>
                    s.sent[id][i].tx.nonce == s.sent[id][j].tx.nonce)
              && (ordered ==> forall i :: 0 <= i < |s.sent[id]| ==>
                    s.sent[id][i].tx.maxPriorityFeePerGas <= s.sent[id][i].tx.maxFeePerGas)
  {
    hide Escalates, Covers, DistinctNonces;
    forall id | id in s.sent
      ensures id in s.rows && InLine(Limit(configs, s.rows[id].account), ordered, s.rows[id], s.sent[id])
    {
      assert s.History(id) == s.sent[id];
    }
  }

  // Without the texts --------------------------------------------------------------------------

  /** If the node rejects the broadcast with an empty text, the job is back where it was, pending and uncounted. */
  lemma EmptyTextHidesAttempt(config: Config, job: TxJob, highest: Option<Word>, rpc: Replies)
    requires job.status.Pending? && job.errorMessage == "" && IsApproved(config, job.call)
    requires job.retryCount < config.maximumRetries && IsReadable(job)
    requires job.nonce.Some? || (rpc.pendingNonce.Answer? && AllocateNonce(highest, rpc.pendingNonce.value).Some?)
    requires rpc.gas.Answer? && rpc.fees.Answer? && rpc.submitHead.Answer? && rpc.send == Raised(Protocol, "")
    ensures var p := ProcessJob(config, job, highest, rpc);
            && |p.effects| == 3 && p.effects[0].Save? && p.effects[1].Send? && p.effects[2] == Save(p.job)
            && p.job.status.Pending? && p.job.errorMessage == "" && p.job.retryCount == job.retryCount
            && p.job.account == job.account && p.job.call == job.call && IsReadable(p.job)
            && p.job.nonce == if job.nonce.Some? then job.nonce else AllocateNonce(highest, rpc.pendingNonce.value)
  {
    hide AllocateNonce, IsApproved;
  }

  /** A node that takes every question and rejects every broadcast. */
  function Rejecting(text: string): Replies {
    Replies(Answer(0), Answer(0), Answer(Quote(0, 0)), Answer(0), 0, Raised(Protocol, text), Answer(None), Answer(0),
            Answer(None))
  }

  /** One job, queued and then processed `n` times against such a node. */
  function RejectedRun(id: JobId, account: Account, call: Call, text: string, n: nat): seq<Action> {
    if n == 0 then [Insert(id, account, call)] else
    RejectedRun(id, account, call, text, n - 1) + [Process(id, if n == 1 then None else Some(0), Rejecting(text), 3)]
  }

  /** The job is waiting for its first attempt, as far as its row tells, after `n` broadcasts. */
  ghost predicate Waits(s: Book, id: JobId, account: Account, call: Call, n: nat) {
    && s.rows.Keys == {id} && |s.History(id)| == n
    && var row := s.rows[id];
       && row.account == account && row.call == call && row.status.Pending? && row.errorMessage == "" && IsReadable(row)
       && row.retryCount == 0 && row.nonce == if n == 0 then None else Some(0)
  }

  lemma RejectedStep(configs: map<Account, Config>, s: Book, id: JobId, account: Account, call: Call, n: nat)
    requires account in configs && IsApproved(configs[account], call) && configs[account].maximumRetries > 0
    requires Waits(s, id, account, call, n)
    ensures var action := Process(id, if n == 0 then None else Some(0), Rejecting(""), 3);
            Enabled(s, action) && Waits(Next(configs, s, action), id, account, call, n + 1)
  {
    hide IsApproved, ProcessJob, ApplyAll;
    var highest: Option<Word> := if n == 0 then None else Some(0);
    var action := Process(id, highest, Rejecting(""), 3);
    assert Enabled(s, action) by {
      assert n > 0 ==> HoldsNonce(s.rows[id]);
    }
    EmptyTextHidesAttempt(configs[account], s.rows[id], highest, Rejecting(""));
    var p := ProcessJob(configs[account], s.rows[id], highest, Rejecting(""));
    assert p.effects[..3] == p.effects;
    SaveSendSave(s, id, p.effects);
  }

  lemma SaveSendSave(s: Book, id: JobId, effects: seq<Effect>)
    requires id in s.rows && |effects| == 3 && effects[0].Save? && effects[1].Send? && effects[2].Save?
    ensures var t := ApplyAll(s, id, effects);
            && t.rows.Keys == s.rows.Keys
            && t.rows[id] == effects[2].job.(account := s.rows[id].account, call := s.rows[id].call)
            && |t.History(id)| == |s.History(id)| + 1
  {
    var s1 := Apply(s, id, effects[0]);
    var s2 := Apply(s1, id, effects[1]);
    assert effects[..2][..1] == effects[..1] && effects[..1][..0] == [];
    assert ApplyAll(s, id, effects[..1]) == s1;
    assert ApplyAll(s, id, effects[..2]) == s2;
  }

  /** Against a node that rejects with an empty text, a manager that retries at all broadcasts without limit: for
      every `n` this run of the protocol makes `n` broadcasts of one job. */
  lemma {:induction false} EmptyTextsAreUnbounded(configs: map<Account, Config>, id: JobId, account: Account,
                                                  call: Call, n: nat)
    requires account in configs && IsApproved(configs[account], call) && configs[account].maximumRetries > 0
    ensures var actions := RejectedRun(id, account, call, "", n);
            && AllEnabled(configs, EMPTY_BOOK, actions)
            && Waits(Run(configs, EMPTY_BOOK, actions), id, account, call, n)
            && |Run(configs, EMPTY_BOOK, actions).History(id)| == n
  {
    hide IsApproved, Enabled, Next, AllEnabled, Run, Waits;
    if n == 0 {
      var insert := Insert(id, account, call);
      NoActions(configs, EMPTY_BOOK);
      QueuedWaits(configs, id, account, call);
      ExtendRun(configs, EMPTY_BOOK, [], insert);
      assert [] + [insert] == [insert];
    } else {
      var before := RejectedRun(id, account, call, "", n - 1);
      EmptyTextsAreUnbounded(configs, id, account, call, n - 1);
      RejectedStep(configs, Run(configs, EMPTY_BOOK, before), id, account, call, n - 1);
      ExtendRun(configs, EMPTY_BOOK, before, Process(id, if n == 1 then None else Some(0), Rejecting(""), 3));
    }
    WaitsCounts(Run(configs, EMPTY_BOOK, RejectedRun(id, account, call, "", n)), id, account, call, n);
  }

  lemma WaitsCounts(s: Book, id: JobId, account: Account, call: Call, n: nat)
    requires Waits(s, id, account, call, n)
    ensures |s.History(id)| == n && id in s.rows && s.rows[id].account == account
  {
  }

  lemma QueuedWaits(configs: map<Account, Config>, id: JobId, account: Account, call: Call)
    ensures Enabled(EMPTY_BOOK, Insert(id, account, call))
    ensures Waits(Next(configs, EMPTY_BOOK, Insert(id, account, call)), id, account, call, 0)
  {
  }

  /** Every exception the node raises at a caught call has this text. */
  ghost predicate OnlyText(rpc: Replies, text: string) {
    && HasOnly(rpc.pendingNonce, text) && HasOnly(rpc.gas, text) && HasOnly(rpc.fees, text)
    && HasOnly(rpc.submitHead, text) && HasOnly(rpc.send, text)
  }

  predicate HasOnly<T>(reply: Reply<T>, text: string) {
    reply.Raised? ==> reply.text == text
  }

  ghost predicate WithinLimit(configs: map<Account, Config>, s: Book) {
    forall id :: id in s.sent ==> id in s.rows && |s.sent[id]| <= Limit(configs, s.rows[id].account) + 1
  }

  ghost predicate BoundHolds(configs: map<Account, Config>, text: string) {
    forall actions: seq<Action> ::
      AllEnabled(configs, EMPTY_BOOK, actions) && (forall a :: a in actions && a.Process? ==> OnlyText(a.rpc, text)) ==>
        WithinLimit(configs, Run(configs, EMPTY_BOOK, actions))
  }

  /** The bound on broadcasts holds in all runs whose exceptions have a given text if and only if the text is not
      empty or the manager does not retry. */
  lemma BoundHoldsIff(account: Account, config: Config, call: Call, text: string)
    requires IsApproved(config, call)
    ensures BoundHolds(map[account := config], text) <==> text != "" || config.maximumRetries == 0
  {
    var configs := map[account := config];
    if text != "" || config.maximumRetries == 0 {
      forall actions: seq<Action> | AllEnabled(configs, EMPTY_BOOK, actions)
                                    && forall a :: a in actions && a.Process? ==> OnlyText(a.rpc, text)
        ensures WithinLimit(configs, Run(configs, EMPTY_BOOK, actions))
      {
        hide Run, AllEnabled, IsApproved;
        BoundedReplacement(configs, false, actions);
      }
    } else {
      hide Run, AllEnabled, IsApproved;
      var n := config.maximumRetries + 2;
      var actions := RejectedRun(0, account, call, "", n);
      EmptyTextsAreUnbounded(configs, 0, account, call, n);
      RejectsOnly(0, account, call, "", n);
      assert !WithinLimit(configs, Run(configs, EMPTY_BOOK, actions));
    }
  }

  lemma {:induction false} RejectsOnly(id: JobId, account: Account, call: Call, text: string, n: nat)
    ensures forall a :: a in RejectedRun(id, account, call, text, n) && a.Process? ==> OnlyText(a.rpc, text)
  {
    if n > 0 {
      RejectsOnly(id, account, call, text, n - 1);
    }
  }
}
