/** Nonce safety across crashes: what holds of the job table and the broadcasts in every run. */
module TxSafety {
  import opened Results
  import opened FixedPoint
  import opened Transactions
  import opened TxJobs

  /** The row of a job after some effects of processing it. */
  function RowAfter(row: TxJob, effects: seq<Effect>): TxJob {
    if effects == [] then row else
    match effects[|effects| - 1]
    case Save(job) => job
    case Send(_) => RowAfter(row, effects[..|effects| - 1])
  }

  predicate IsFinal(status: TxStatus) {
    status.Failed? || status.Reorged? || status.Finalized?
  }

  /** Every row past `Pending` that may still count has its nonce, and the fields read unchecked are there. */
  predicate RowOk(job: TxJob) {
    && IsReadable(job)
    && (job.status.Submitted? || job.status.Included? || job.status.Finalized? || job.status.Replaced? ==>
      job.nonce.Some?)
  }

  /** What nonce safety needs of a write or a broadcast, given the row before it. */
  predicate LegalEffect(highest: Option<Word>, row: TxJob, effect: Effect) {
    match effect
    case Save(job) =>
      && job.account == row.account && job.call == row.call && RowOk(job) && !IsFinal(row.status)
      && (if row.nonce.Some? then job.nonce == row.nonce
          else job.nonce.Some? && highest.Some? ==> job.nonce.value > highest.value)
    case Send(tx) =>
      row.status.Submitted? && row.nonce == Some(tx.nonce) && row.rawTransaction == Some(tx) && Carries(tx, row)
  }

  /** The transaction makes the job's call, on the job's chain. */
  predicate Carries(tx: Eip1559Transaction, job: TxJob) {
    && tx.chainId == job.account.chainId && tx.to == Some(job.call.to)
    && tx.value == job.call.value && tx.data == job.call.data
  }

  ghost predicate LegalChain(highest: Option<Word>, row: TxJob, effects: seq<Effect>) {
    forall k :: 0 <= k < |effects| ==> LegalEffect(highest, RowAfter(row, effects[..k]), effects[k])
  }

  lemma {:induction false} ChainGrows(highest: Option<Word>, row: TxJob, effects: seq<Effect>, effect: Effect)
    requires LegalChain(highest, row, effects) && LegalEffect(highest, RowAfter(row, effects), effect)
    ensures LegalChain(highest, row, effects + [effect])
    ensures RowAfter(row, effects + [effect]) == if effect.Save? then effect.job else RowAfter(row, effects)
  {
    var longer := effects + [effect];
    assert longer[..|effects|] == effects;
    forall k | 0 <= k < |longer| ensures LegalEffect(highest, RowAfter(row, longer[..k]), longer[k]) {
      if k < |effects| {
        assert longer[..k] == effects[..k] && longer[k] == effects[k];
      }
    }
  }

  // Processing is legal ------------------------------------------------------------------------

  /** The job in memory is a legal successor of the row last written. */
  ghost predicate OnTrack(highest: Option<Word>, row: TxJob, p: Progress) {
    var last := RowAfter(row, p.effects);
    && LegalChain(highest, row, p.effects)
    && p.job.account == last.account && p.job.call == last.call && !IsFinal(last.status)
    && (if last.nonce.Some? then p.job.nonce == last.nonce
        else p.job.nonce.Some? && highest.Some? ==> p.job.nonce.value > highest.value)
  }

  lemma SaveOnTrack(highest: Option<Word>, row: TxJob, p: Progress, next: TxJob)
    requires OnTrack(highest, row, p) && RowOk(next)
    requires next.account == p.job.account && next.call == p.job.call && next.nonce == p.job.nonce
    ensures LegalChain(highest, row, p.Saved(next).effects)
    ensures !IsFinal(next.status) ==> OnTrack(highest, row, p.Saved(next))
  {
    hide RowAfter, LegalChain;
    ChainGrows(highest, row, p.effects, Save(next));
  }

  lemma PreparedOnTrack(job: TxJob, retry: bool, highest: Option<Word>, rpc: Replies)
    requires RowOk(job) && IsActive(job.status)
    ensures OnTrack(highest, job, Prepared(job, retry, highest, rpc))
  {
    hide RowAfter, LegalChain, MulDivUp;
    var started := Started(job, retry);
    assert LegalChain(highest, job, []) && RowAfter(job, []) == job by { StartOnTrack(highest, job); }
    var p1 := WithNonce(started, highest, rpc);
    assert OnTrack(highest, job, p1);
    var p2 := WithGas(p1, rpc);
    assert OnTrack(highest, job, p2);
    if p2.stop.None? && IsReplacement(p2.job, retry) {
      SaveOnTrack(highest, job, p2, p2.job.(status := Replaced));
    }
  }

  lemma StartOnTrack(highest: Option<Word>, row: TxJob)
    ensures LegalChain(highest, row, []) && RowAfter(row, []) == row
  {
  }

  lemma AttemptOnTrack(job: TxJob, retry: bool, highest: Option<Word>, rpc: Replies)
    requires RowOk(job) && IsActive(job.status)
    ensures OnTrack(highest, job, Attempted(job, retry, highest, rpc))
    ensures var p := Attempted(job, retry, highest, rpc);
            p.broadcastAttempted ==> p.job.nonce.Some? && p.job.transactionHash.Some?
  {
    hide RowAfter, LegalChain, Prepared;
    PreparedOnTrack(job, retry, highest, rpc);
    var p := Prepared(job, retry, highest, rpc);
    NotYetBroadcast(job, retry, highest, rpc);
    if p.stop.None? && rpc.submitHead.Answer? {
      var q := Signed(p, rpc);
      SaveOnTrack(highest, job, p, q.job);
      assert RowAfter(job, q.effects) == q.job by { ChainGrows(highest, job, p.effects, Save(q.job)); }
      var tx := q.job.rawTransaction.value;
      ChainGrows(highest, job, q.effects, Send(tx));
      var sent := q.(effects := q.effects + [Send(tx)], broadcastAttempted := true);
      assert OnTrack(highest, job, sent);
      if rpc.send.Answer? {
        SaveOnTrack(highest, job, sent, sent.job.(transactionHash := Some(rpc.send.value)));
      }
    }
  }

  lemma NotYetBroadcast(job: TxJob, retry: bool, highest: Option<Word>, rpc: Replies)
    ensures !Prepared(job, retry, highest, rpc).broadcastAttempted
  {
    hide MulDivUp;
  }

  lemma SubmitIsLegal(config: Config, job: TxJob, retry: bool, highest: Option<Word>, rpc: Replies)
    requires RowOk(job) && IsActive(job.status)
    ensures LegalChain(highest, job, Submit(config, job, retry, highest, rpc).effects)
  {
    hide RowAfter, LegalChain, Attempted;
    StartOnTrack(highest, job);
    if !IsApproved(config, job.call) || (retry && job.retryCount >= config.maximumRetries) {
      SaveOnTrack(highest, job, Idle(job), Submit(config, job, retry, highest, rpc).job);
    } else {
      AttemptOnTrack(job, retry, highest, rpc);
      var p := Attempted(job, retry, highest, rpc);
      var q := Handled(config, p);
      if q != p {
        SaveOnTrack(highest, job, p, q.job);
      }
    }
  }

  /** Whatever the node answers, processing a job writes and sends only what nonce safety allows. */
  lemma ProcessIsLegal(config: Config, job: TxJob, highest: Option<Word>, rpc: Replies)
    requires RowOk(job) && IsActive(job.status)
    ensures LegalChain(highest, job, ProcessJob(config, job, highest, rpc).effects)
  {
    hide RowAfter, LegalChain, Submit, IsOverdue, Confirmations;
    StartOnTrack(highest, job);
    SubmitIsLegal(config, job, job.errorMessage != "", highest, rpc);
    SubmitIsLegal(config, job, true, highest, rpc);
    var p := ProcessJob(config, job, highest, rpc);
    if p == Idle(job).Saved(p.job) && RowOk(p.job) && p.job.account == job.account && p.job.call == job.call
       && p.job.nonce == job.nonce {
      SaveOnTrack(highest, job, Idle(job), p.job);
    }
  }

  // Invariants of every run ----------------------------------------------------------------------

  ghost predicate DistinctNonces(rows: map<JobId, TxJob>) {
    forall a, b | a in rows && b in rows && a != b && HoldsNonce(rows[a]) && HoldsNonce(rows[b])
                  && rows[a].account == rows[b].account :: rows[a].nonce != rows[b].nonce
  }

  /** Each broadcast was on record as submitted when it was made, makes the job's call, and its nonce is still the
      job's. */
  ghost predicate BroadcastsOnRecord(s: Book) {
    forall id :: id in s.sent ==>
      && id in s.rows
      && forall i :: 0 <= i < |s.sent[id]| ==>
           && s.sent[id][i].row.status.Submitted?
           && s.sent[id][i].row.rawTransaction == Some(s.sent[id][i].tx)
           && s.sent[id][i].row.nonce == Some(s.sent[id][i].tx.nonce) == s.rows[id].nonce
           && Carries(s.sent[id][i].tx, s.rows[id])
  }

  ghost predicate RowsOk(rows: map<JobId, TxJob>) {
    forall id :: id in rows ==> RowOk(rows[id])
  }

  ghost predicate NonceSafe(s: Book) {
    RowsOk(s.rows) && DistinctNonces(s.rows) && BroadcastsOnRecord(s)
  }

  /** The database's unique index on active nonces, which ignores failed, replaced and reorganised jobs. */
  ghost predicate NonceIndexHolds(rows: map<JobId, TxJob>) {
    forall a, b | a in rows && b in rows && a != b && HoldsNonce(rows[a]) && HoldsNonce(rows[b])
                  && !rows[a].status.Replaced? && !rows[b].status.Replaced?
                  && rows[a].account == rows[b].account :: rows[a].nonce != rows[b].nonce
  }

  /** Every nonce held by another job of the account is at most `highest`. */
  ghost predicate Bounds(rows: map<JobId, TxJob>, id: JobId, highest: Option<Word>) {
    id in rows &&
    forall a :: a in rows && a != id && HoldsNonce(rows[a]) && rows[a].account == rows[id].account ==>
                  highest.Some? && rows[a].nonce.value <= highest.value
  }

  lemma LegalSaveKeepsNonces(s: Book, id: JobId, job: TxJob, highest: Option<Word>)
    requires NonceSafe(s) && Bounds(s.rows, id, highest) && LegalEffect(highest, s.rows[id], Save(job))
    ensures NonceSafe(Apply(s, id, Save(job))) && Bounds(Apply(s, id, Save(job)).rows, id, highest)
    ensures Apply(s, id, Save(job)).rows == s.rows[id := job]
  {
    var t := Apply(s, id, Save(job));
    forall a | a in t.rows && a != id && HoldsNonce(t.rows[a]) && HoldsNonce(job) && t.rows[a].account == job.account
      ensures t.rows[a].nonce != job.nonce
    {
      assert t.rows[a] == s.rows[a];
      if s.rows[id].nonce.Some? {
        assert HoldsNonce(s.rows[id]);
      }
    }
    forall a, b | a in t.rows && b in t.rows && a != b && HoldsNonce(t.rows[a]) && HoldsNonce(t.rows[b])
                  && t.rows[a].account == t.rows[b].account
      ensures t.rows[a].nonce != t.rows[b].nonce
    {
    }
  }

  lemma LegalEffectKeepsNonces(s: Book, id: JobId, effect: Effect, highest: Option<Word>)
    requires NonceSafe(s) && Bounds(s.rows, id, highest) && LegalEffect(highest, s.rows[id], effect)
    ensures NonceSafe(Apply(s, id, effect)) && Bounds(Apply(s, id, effect).rows, id, highest)
    ensures Apply(s, id, effect).rows == s.rows[id := if effect.Save? then effect.job else s.rows[id]]
  {
    if effect.Save? {
      LegalSaveKeepsNonces(s, id, effect.job, highest);
    } else {
      hide DistinctNonces, RowsOk;
      var t := Apply(s, id, effect);
      assert t.rows == s.rows[id := s.rows[id]];
      assert t.sent[id] == s.History(id) + [Sent(effect.tx, s.rows[id])];
    }
  }

  /** A legal chain cut anywhere keeps nonce safety, and leaves the row it says. */
  lemma {:induction false} LegalChainKeepsNonces(s: Book, id: JobId, effects: seq<Effect>, highest: Option<Word>,
                                                 n: nat)
    requires NonceSafe(s) && Bounds(s.rows, id, highest) && n <= |effects|
    requires LegalChain(highest, s.rows[id], effects)
    ensures var t := ApplyAll(s, id, effects[..n]);
            && NonceSafe(t) && Bounds(t.rows, id, highest)
            && t.rows == s.rows[id := RowAfter(s.rows[id], effects[..n])]
  {
    hide NonceSafe, Bounds, LegalEffect, Apply;
    assert id in s.rows by { BoundsRow(s.rows, id, highest); }
    if n == 0 {
      assert s.rows == s.rows[id := s.rows[id]];
    } else {
      LegalChainKeepsNonces(s, id, effects, highest, n - 1);
      var t, row := ApplyAll(s, id, effects[..n - 1]), RowAfter(s.rows[id], effects[..n - 1]);
      assert effects[..n][..n - 1] == effects[..n - 1];
      assert t.rows[id] == row && LegalEffect(highest, row, effects[n - 1]);
      LegalEffectKeepsNonces(t, id, effects[n - 1], highest);
    }
  }

  lemma BoundsRow(rows: map<JobId, TxJob>, id: JobId, highest: Option<Word>)
    requires Bounds(rows, id, highest)
    ensures id in rows
  {
  }

  lemma HighestBounds(rows: map<JobId, TxJob>, id: JobId, highest: Option<Word>)
    requires id in rows && IsHighest(rows, rows[id].account, highest)
    ensures Bounds(rows, id, highest)
  {
  }

  lemma NextKeepsNonces(configs: map<Account, Config>, s: Book, action: Action)
    requires NonceSafe(s) && Enabled(s, action)
    ensures NonceSafe(Next(configs, s, action))
  {
    match action
    case Insert(id, account, call) =>
    case Process(id, highest, rpc, survived) =>
      if id in s.rows && s.rows[id].account in configs && IsActive(s.rows[id].status) {
        hide ProcessJob, LegalChain, DistinctNonces, BroadcastsOnRecord, ApplyAll, Bounds, IsHighest;
        HighestBounds(s.rows, id, highest);
        ProcessIsLegal(configs[s.rows[id].account], s.rows[id], highest, rpc);
        var effects := ProcessJob(configs[s.rows[id].account], s.rows[id], highest, rpc).effects;
        LegalChainKeepsNonces(s, id, effects, highest, Min(survived, |effects|));
      }
  }

  /** In every run, crashing anywhere: the jobs of a wallet that have not failed or been reorganised away hold
      pairwise distinct nonces, the database's nonce index never rejects a write, every broadcast was already
      persisted as submitted with its nonce, and no job is read with a field missing. */
  lemma {:induction false} NonceSafety(configs: map<Account, Config>, actions: seq<Action>)
    requires AllEnabled(configs, EMPTY_BOOK, actions)
    ensures NonceSafe(Run(configs, EMPTY_BOOK, actions))
    ensures NonceIndexHolds(Run(configs, EMPTY_BOOK, actions).rows)
  {
    if actions != [] {
      hide NonceSafe, Enabled, Next;
      var n := |actions| - 1;
      EnabledPrefix(configs, EMPTY_BOOK, actions, n);
      NonceSafety(configs, actions[..n]);
      NextKeepsNonces(configs, Run(configs, EMPTY_BOOK, actions[..n]), actions[n]);
    }
    IndexFollows(Run(configs, EMPTY_BOOK, actions));
  }

  lemma IndexFollows(s: Book)
    ensures NonceSafe(s) ==> NonceIndexHolds(s.rows)
    ensures s == EMPTY_BOOK ==> NonceSafe(s)
  {
  }

  lemma EnabledPrefix(configs: map<Account, Config>, s: Book, actions: seq<Action>, n: nat)
    requires AllEnabled(configs, s, actions) && n <= |actions|
    ensures AllEnabled(configs, s, actions[..n])
    ensures n < |actions| ==> Enabled(Run(configs, s, actions[..n]), actions[n])
  {
    hide Enabled, Run;
    forall i | 0 <= i < n ensures Enabled(Run(configs, s, actions[..n][..i]), actions[..n][i]) {
      assert actions[..n][..i] == actions[..i];
    }
  }

  lemma NoActions(configs: map<Account, Config>, s: Book)
    ensures AllEnabled(configs, s, []) && Run(configs, s, []) == s
  {
  }

  lemma ExtendRun(configs: map<Account, Config>, s: Book, actions: seq<Action>, action: Action)
    requires AllEnabled(configs, s, actions) && Enabled(Run(configs, s, actions), action)
    ensures AllEnabled(configs, s, actions + [action])
    ensures Run(configs, s, actions + [action]) == Next(configs, Run(configs, s, actions), action)
  {
    hide Enabled, Next;
    var longer := actions + [action];
    assert longer[..|actions|] == actions;
    forall i | 0 <= i < |longer| ensures Enabled(Run(configs, s, longer[..i]), longer[i]) {
      if i < |actions| {
        assert longer[..i] == actions[..i];
      }
    }
  }

  // What no later step undoes ----------------------------------------------------------------------

  /** From one state to a later one: a persisted nonce stays, a final job stays as it is, and broadcasts are
      only added. */
  ghost predicate Extends(s: Book, t: Book) {
    && (forall id :: id in s.rows ==>
          && id in t.rows
          && (s.rows[id].nonce.Some? ==> t.rows[id].nonce == s.rows[id].nonce)
          && (IsFinal(s.rows[id].status) ==> t.rows[id] == s.rows[id])
          && t.rows[id].account == s.rows[id].account && t.rows[id].call == s.rows[id].call)
    && (forall id :: id in s.sent ==> id in t.sent && s.sent[id] <= t.sent[id])
  }

  lemma {:induction false} LegalChainExtends(s: Book, id: JobId, effects: seq<Effect>, highest: Option<Word>, n: nat)
    requires NonceSafe(s) && Bounds(s.rows, id, highest) && n <= |effects|
    requires LegalChain(highest, s.rows[id], effects)
    ensures Extends(s, ApplyAll(s, id, effects[..n]))
  {
    hide Extends, LegalEffect, NonceSafe;
    if n == 0 {
      ExtendsItself(s);
    } else {
      LegalChainExtends(s, id, effects, highest, n - 1);
      LegalChainKeepsNonces(s, id, effects, highest, n - 1);
      var t := ApplyAll(s, id, effects[..n - 1]);
      assert effects[..n][..n - 1] == effects[..n - 1];
      assert LegalEffect(highest, RowAfter(s.rows[id], effects[..n - 1]), effects[n - 1]);
      ApplyExtends(t, id, effects[n - 1], highest);
      ExtendsChain(s, t, ApplyAll(s, id, effects[..n]));
    }
  }

  lemma ExtendsItself(s: Book)
    ensures Extends(s, s)
  {
  }

  lemma ApplyExtends(s: Book, id: JobId, effect: Effect, highest: Option<Word>)
    requires id in s.rows && LegalEffect(highest, s.rows[id], effect)
    ensures Extends(s, Apply(s, id, effect))
  {
  }

  lemma ExtendsChain(s: Book, t: Book, u: Book)
    requires Extends(s, t) && Extends(t, u)
    ensures Extends(s, u)
  {
  }

  lemma NextExtends(configs: map<Account, Config>, s: Book, action: Action)
    requires NonceSafe(s) && Enabled(s, action)
    ensures Extends(s, Next(configs, s, action))
  {
    match action
    case Insert(id, account, call) =>
    case Process(id, highest, rpc, survived) =>
      if id in s.rows && s.rows[id].account in configs && IsActive(s.rows[id].status) {
        hide ProcessJob, LegalChain, ApplyAll, RowAfter, DistinctNonces, BroadcastsOnRecord, Bounds, IsHighest;
        HighestBounds(s.rows, id, highest);
        ProcessIsLegal(configs[s.rows[id].account], s.rows[id], highest, rpc);
        var effects := ProcessJob(configs[s.rows[id].account], s.rows[id], highest, rpc).effects;
        LegalChainExtends(s, id, effects, highest, Min(survived, |effects|));
      }
  }

  /** In every run: between any moment and any later one, no persisted nonce changes, and failed, reorganised
      and finalized jobs stay exactly as they are. */
  lemma {:induction false} NoncesPersist(configs: map<Account, Config>, actions: seq<Action>, i: nat)
    requires AllEnabled(configs, EMPTY_BOOK, actions) && i <= |actions|
    ensures Extends(Run(configs, EMPTY_BOOK, actions[..i]), Run(configs, EMPTY_BOOK, actions))
  {
    hide NonceSafe, Enabled, Next, Extends;
    if i == |actions| {
      assert actions[..i] == actions;
      ExtendsItself(Run(configs, EMPTY_BOOK, actions));
    } else {
      var n := |actions| - 1;
      EnabledPrefix(configs, EMPTY_BOOK, actions, n);
      assert actions[..n][..i] == actions[..i];
      NoncesPersist(configs, actions[..n], i);
      NonceSafety(configs, actions[..n]);
      var before := Run(configs, EMPTY_BOOK, actions[..n]);
      NextExtends(configs, before, actions[n]);
      ExtendsChain(Run(configs, EMPTY_BOOK, actions[..i]), before, Run(configs, EMPTY_BOOK, actions));
    }
  }

  // Approval and finality ---------------------------------------------------------------------------

  /** Only jobs whose call the policy approves have ever been broadcast. */
  ghost predicate OnlyApproved(configs: map<Account, Config>, s: Book) {
    forall id :: id in s.sent && id in s.rows ==>
      s.rows[id].account in configs && IsApproved(configs[s.rows[id].account], s.rows[id].call)
  }

  lemma UnapprovedSendsNothing(config: Config, job: TxJob, highest: Option<Word>, rpc: Replies)
    requires IsReadable(job) && !IsApproved(config, job.call)
    ensures forall k :: 0 <= k < |ProcessJob(config, job, highest, rpc).effects| ==>
              ProcessJob(config, job, highest, rpc).effects[k].Save?
  {
    hide IsApproved, Attempted, IsOverdue, Confirmations;
  }

  lemma {:induction false} SavesSendNothing(s: Book, id: JobId, effects: seq<Effect>)
    requires id in s.rows && forall k :: 0 <= k < |effects| ==> effects[k].Save?
    ensures ApplyAll(s, id, effects).sent == s.sent
  {
    if effects != [] {
      SavesSendNothing(s, id, effects[..|effects| - 1]);
    }
  }

  lemma {:induction false} SendsAreTheJobs(s: Book, id: JobId, effects: seq<Effect>)
    requires id in s.rows
    ensures ApplyAll(s, id, effects).sent.Keys <= s.sent.Keys + {id}
  {
    if effects != [] {
      SendsAreTheJobs(s, id, effects[..|effects| - 1]);
    }
  }

  lemma NextKeepsApproval(configs: map<Account, Config>, s: Book, action: Action)
    requires NonceSafe(s) && Enabled(s, action) && OnlyApproved(configs, s)
    ensures OnlyApproved(configs, Next(configs, s, action))
  {
    hide ProcessJob, ApplyAll, IsApproved, NonceSafe, IsHighest, Extends;
    var t := Next(configs, s, action);
    assert forall id :: id in s.rows ==>
                          t.rows[id].account == s.rows[id].account && t.rows[id].call == s.rows[id].call by {
      NextExtends(configs, s, action);
      CallsStay(s, t);
    }
    match action
    case Insert(id, account, call) =>
      assert id !in s.rows ==> id !in s.sent by { SentAreStored(s, id); }
    case Process(id, highest, rpc, survived) =>
      if id in s.rows && s.rows[id].account in configs && IsActive(s.rows[id].status) && IsReadable(s.rows[id]) {
        var config := configs[s.rows[id].account];
        var effects := ProcessJob(config, s.rows[id], highest, rpc).effects;
        var done := effects[..Min(survived, |effects|)];
        SendsAreTheJobs(s, id, done);
        if !IsApproved(config, s.rows[id].call) {
          UnapprovedSendsNothing(config, s.rows[id], highest, rpc);
          SavesSendNothing(s, id, done);
        }
      }
  }

  lemma SentAreStored(s: Book, id: JobId)
    requires NonceSafe(s)
    ensures id in s.sent ==> id in s.rows
  {
  }

  lemma CallsStay(s: Book, t: Book)
    requires Extends(s, t)
    ensures forall id :: id in s.rows ==>
              id in t.rows && t.rows[id].account == s.rows[id].account && t.rows[id].call == s.rows[id].call
  {
  }

  /** The transaction moves no ether, and one of the approved calls has its destination, the exact size of its data,
      and the selector that its data begin with. */
  ghost predicate FollowsPolicy(config: Config, tx: Eip1559Transaction) {
    && tx.value == 0
    && exists i :: 0 <= i < |config.approvedCalls| &&
         var approved := config.approvedCalls[i];
         && tx.to == Some(approved.destination) && |tx.data| == approved.calldataSize >= |approved.selector|
         && tx.data[..|approved.selector|] == approved.selector
  }

  lemma ApprovedFollowsPolicy(config: Config, job: TxJob, tx: Eip1559Transaction)
    requires Carries(tx, job)
    ensures FollowsPolicy(config, tx) <==> IsApproved(config, job.call)
  {
    forall i | 0 <= i < |config.approvedCalls|
      ensures var selector := config.approvedCalls[i].selector;
              selector <= tx.data <==> |tx.data| >= |selector| && tx.data[..|selector|] == selector
    {
    }
  }

  /** In every run, only calls that the policy approves are ever broadcast, and each broadcast makes exactly its
      job's call. */
  lemma {:induction false} OnlyApprovedCallsAreBroadcast(configs: map<Account, Config>, actions: seq<Action>)
    requires AllEnabled(configs, EMPTY_BOOK, actions)
    ensures OnlyApproved(configs, Run(configs, EMPTY_BOOK, actions))
    ensures var s := Run(configs, EMPTY_BOOK, actions);
            forall id :: id in s.sent ==>
              && id in s.rows && s.rows[id].account in configs
              && forall i :: 0 <= i < |s.sent[id]| ==>
                   && Carries(s.sent[id][i].tx, s.rows[id])
                   && FollowsPolicy(configs[s.rows[id].account], s.sent[id][i].tx)
  {
    if actions != [] {
      hide NonceSafe, Enabled, Next, OnlyApproved;
      var n := |actions| - 1;
      EnabledPrefix(configs, EMPTY_BOOK, actions, n);
      OnlyApprovedCallsAreBroadcast(configs, actions[..n]);
      NonceSafety(configs, actions[..n]);
      NextKeepsApproval(configs, Run(configs, EMPTY_BOOK, actions[..n]), actions[n]);
    }
    NonceSafety(configs, actions);
    PolicyOnRecord(configs, Run(configs, EMPTY_BOOK, actions));
  }

  lemma PolicyOnRecord(configs: map<Account, Config>, s: Book)
    requires NonceSafe(s) && OnlyApproved(configs, s)
    ensures forall id :: id in s.sent ==>
              && id in s.rows && s.rows[id].account in configs
              && forall i :: 0 <= i < |s.sent[id]| ==>
                   && Carries(s.sent[id][i].tx, s.rows[id])
                   && FollowsPolicy(configs[s.rows[id].account], s.sent[id][i].tx)
  {
    hide NonceSafe, OnlyApproved, Carries, FollowsPolicy, IsApproved;
    CallsOnRecord(s);
    forall id, i | id in s.sent && 0 <= i < |s.sent[id]|
      ensures s.rows[id].account in configs && FollowsPolicy(configs[s.rows[id].account], s.sent[id][i].tx)
    {
      ApprovedOnRecord(configs, s, id);
      ApprovedFollowsPolicy(configs[s.rows[id].account], s.rows[id], s.sent[id][i].tx);
    }
    forall id | id in s.sent ensures s.rows[id].account in configs {
      ApprovedOnRecord(configs, s, id);
    }
  }

  lemma ApprovedOnRecord(configs: map<Account, Config>, s: Book, id: JobId)
    requires OnlyApproved(configs, s) && id in s.sent && id in s.rows
    ensures s.rows[id].account in configs && IsApproved(configs[s.rows[id].account], s.rows[id].call)
  {
    hide IsApproved;
  }

  lemma CallsOnRecord(s: Book)
    requires NonceSafe(s)
    ensures forall id :: id in s.sent ==>
              id in s.rows && forall i :: 0 <= i < |s.sent[id]| ==> Carries(s.sent[id][i].tx, s.rows[id])
  {
  }

  /** A job becomes final exactly when its block is still canonical and `confirmationDepth` blocks deep, up to the
      one count that wraps to zero in 64 bits; and it is given up as reorganised exactly when the block is gone. */
  lemma FinalityNeedsDepth(config: Config, job: TxJob, highest: Option<Word>, rpc: Replies)
    requires job.status.Included? && IsReadable(job) && config.confirmationDepth > 0
    requires job.includedBlockNumber.value < UINT64_MODULUS
    requires rpc.pollHead.Answer? ==> rpc.pollHead.value < UINT64_MODULUS
    ensures var p := ProcessJob(config, job, highest, rpc);
            var included := job.includedBlockNumber.value;
            && (p.job.status.Finalized? <==>
                  && rpc.block == Answer(job.includedBlockHash)
                  && rpc.pollHead.Answer?
                  && included + config.confirmationDepth <= rpc.pollHead.value + 1
                  && rpc.pollHead.value + 1 - included < UINT64_MODULUS)
            && (p.job.status.Reorged? <==> rpc.block.Answer? && rpc.block != Answer(job.includedBlockHash))
  {
    hide Submit;
    if rpc.pollHead.Answer? {
      assert Confirmations(job.includedBlockNumber.value, rpc.pollHead.value) ==
             if rpc.pollHead.value < job.includedBlockNumber.value
                || rpc.pollHead.value + 1 - job.includedBlockNumber.value == UINT64_MODULUS then 0
             else rpc.pollHead.value + 1 - job.includedBlockNumber.value;
    }
  }
}
