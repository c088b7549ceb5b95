/** Managers of several wallets and the queueing services at work at once: between any two writes or broadcasts of
    one process, any other may act, and any process may die. */
module TxInterleaving {
  import opened Results
  import opened Transactions
  import opened TxJobs
  import opened TxSafety
  import opened TxReplacement

  /** A manager in the middle of a run: the jobs it loaded and has not come to, the job in hand, the effects still
      to make for it, and what the nonce query answered. */
  datatype Manager = Manager(queue: seq<(JobId, TxJob)>, job: JobId, effects: seq<Effect>, highest: Option<Word>)

  datatype System = System(book: Book, managers: map<Account, Manager>)

  const IDLE_SYSTEM := System(EMPTY_BOOK, map[])

  datatype Step =
    | Queue(id: JobId, account: Account, call: Call)
    | Load(account: Account, jobs: seq<(JobId, TxJob)>)
    | Begin(account: Account, highest: Option<Word>, rpc: Replies)
    | Perform(account: Account)
    | Leave(account: Account)

  /** Copies of the account's active rows, each job once. */
  ghost predicate IsSnapshot(rows: map<JobId, TxJob>, account: Account, jobs: seq<(JobId, TxJob)>) {
    && (forall i :: 0 <= i < |jobs| ==>
          && jobs[i].0 in rows && rows[jobs[i].0] == jobs[i].1
          && jobs[i].1.account == account && IsActive(jobs[i].1.status))
    && (forall i, j :: 0 <= i < j < |jobs| ==> jobs[i].0 != jobs[j].0)
  }

  /** One serial manager per account: it loads when it is not running, and takes the next job when the last is done.
      Leaving is the end of a run, an exception that escapes, or the death of the process. */
  ghost predicate Possible(configs: map<Account, Config>, s: System, step: Step) {
    match step
    case Queue(_, _, _) => true
    case Load(account, jobs) => account in configs && account !in s.managers && IsSnapshot(s.book.rows, account, jobs)
    case Begin(account, highest, _) =>
      && account in s.managers && s.managers[account].effects == [] && s.managers[account].queue != []
      && account in configs && IsHighest(s.book.rows, account, highest)
    case Perform(account) =>
      account in s.managers && s.managers[account].effects != [] && s.managers[account].job in s.book.rows
    case Leave(account) => account in s.managers
  }

  /** The manager works on the row as it loaded it, however long ago that was. */
  ghost function After(configs: map<Account, Config>, s: System, step: Step): System
    requires Possible(configs, s, step)
  {
    match step
    case Queue(id, account, call) => s.(book := Next(configs, s.book, Insert(id, account, call)))
    case Load(account, jobs) => s.(managers := s.managers[account := Manager(jobs, 0, [], None)])
    case Begin(account, highest, rpc) =>
      var m := s.managers[account];
      var row := m.queue[0].1;
      var effects := if IsReadable(row) then ProcessJob(configs[account], row, highest, rpc).effects else [];
      s.(managers := s.managers[account := Manager(m.queue[1..], m.queue[0].0, effects, highest)])
    case Perform(account) =>
      var m := s.managers[account];
      System(Apply(s.book, m.job, m.effects[0]), s.managers[account := m.(effects := m.effects[1..])])
    case Leave(account) => s.(managers := s.managers - {account})
  }

  // The invariant ------------------------------------------------------------------------------

  /** The loaded rows are still the table's, and what is left of the job in hand is legal on its row. */
  ghost predicate ManagerOk(rows: map<JobId, TxJob>, account: Account, m: Manager) {
    && IsSnapshot(rows, account, m.queue)
    && (m.effects != [] ==> InHand(rows, account, m))
  }

  ghost predicate InHand(rows: map<JobId, TxJob>, account: Account, m: Manager) {
    && m.job in rows && rows[m.job].account == account
    && (forall i :: 0 <= i < |m.queue| ==> m.queue[i].0 != m.job)
    && Bounds(rows, m.job, m.highest) && LegalChain(m.highest, rows[m.job], m.effects)
  }

  ghost predicate SystemOk(configs: map<Account, Config>, s: System) {
    && NonceSafe(s.book)
    && forall a :: a in s.managers ==> a in configs && ManagerOk(s.book.rows, a, s.managers[a])
  }

  /** Changing one row of another account, or adding one, leaves a manager's business alone. */
  lemma OthersStayOk(rows: map<JobId, TxJob>, rows': map<JobId, TxJob>, account: Account, m: Manager)
    requires ManagerOk(rows, account, m)
    requires forall id :: id in rows ==> id in rows' && rows'[id].account == rows[id].account
    requires forall id :: id in rows && rows[id].account == account ==> rows'[id] == rows[id]
    requires forall id :: id in rows' && id !in rows ==> !HoldsNonce(rows'[id])
    ensures ManagerOk(rows', account, m)
  {
    hide LegalChain;
  }

  /** Dropping the first of a legal chain leaves a legal chain on the row it made. */
  lemma {:induction false} ChainShifts(highest: Option<Word>, row: TxJob, effects: seq<Effect>)
    requires effects != [] && LegalChain(highest, row, effects)
    ensures LegalEffect(highest, row, effects[0])
    ensures LegalChain(highest, if effects[0].Save? then effects[0].job else row, effects[1..])
  {
    hide LegalEffect;
    var next := if effects[0].Save? then effects[0].job else row;
    assert effects[..0] == [];
    forall k | 0 <= k < |effects[1..]|
      ensures LegalEffect(highest, RowAfter(next, effects[1..][..k]), effects[1..][k])
    {
      RowShifts(row, effects, k + 1);
      assert effects[1..][..k] == effects[1..k + 1];
      assert LegalEffect(highest, RowAfter(row, effects[..k + 1]), effects[k + 1]);
    }
  }

  lemma {:induction false} RowShifts(row: TxJob, effects: seq<Effect>, n: nat)
    requires 0 < n <= |effects|
    ensures RowAfter(row, effects[..n]) == RowAfter(if effects[0].Save? then effects[0].job else row, effects[1..n])
  {
    if n > 1 {
      RowShifts(row, effects, n - 1);
      assert effects[..n][..n - 1] == effects[..n - 1] && effects[1..n][..n - 2] == effects[1..n - 1];
    } else {
      assert effects[..1][..0] == [] && effects[1..1] == [];
    }
  }

  lemma PerformKeeps(configs: map<Account, Config>, s: System, account: Account)
    requires SystemOk(configs, s) && Possible(configs, s, Perform(account))
    ensures SystemOk(configs, After(configs, s, Perform(account)))
    ensures Extends(s.book, After(configs, s, Perform(account)).book)
  {
    hide LegalChain, LegalEffect, NonceSafe, Bounds, Extends;
    var m := s.managers[account];
    var rows, effect := s.book.rows, m.effects[0];
    ChainShifts(m.highest, rows[m.job], m.effects);
    LegalEffectKeepsNonces(s.book, m.job, effect, m.highest);
    ApplyExtends(s.book, m.job, effect, m.highest);
    var t := After(configs, s, Perform(account));
    var row := if effect.Save? then effect.job else rows[m.job];
    assert row.account == account by { LegalKeepsAccount(m.highest, rows[m.job], effect); }
    assert t.book.rows == rows[m.job := row];
    forall a | a in t.managers ensures a in configs && ManagerOk(t.book.rows, a, t.managers[a]) {
      if a != account {
        OthersStayOk(rows, t.book.rows, a, s.managers[a]);
      }
    }
  }

  lemma LegalKeepsAccount(highest: Option<Word>, row: TxJob, effect: Effect)
    requires LegalEffect(highest, row, effect)
    ensures effect.Save? ==> effect.job.account == row.account
  {
  }

  lemma BeginKeeps(configs: map<Account, Config>, s: System, step: Step)
    requires SystemOk(configs, s) && step.Begin? && Possible(configs, s, step)
    ensures SystemOk(configs, After(configs, s, step))
  {
    hide LegalChain, NonceSafe, Bounds, ProcessJob, IsHighest;
    var m := s.managers[step.account];
    var id, row := m.queue[0].0, m.queue[0].1;
    SafeRow(s.book, id);
    ProcessIsLegal(configs[step.account], row, step.highest, step.rpc);
    HighestBounds(s.book.rows, id, step.highest);
  }

  lemma QueueKeeps(configs: map<Account, Config>, s: System, step: Step)
    requires SystemOk(configs, s) && step.Queue?
    ensures SystemOk(configs, After(configs, s, step))
    ensures Extends(s.book, After(configs, s, step).book)
  {
    var insert := Insert(step.id, step.account, step.call);
    NextKeepsNonces(configs, s.book, insert);
    NextExtends(configs, s.book, insert);
    hide NonceSafe, ManagerOk;
    var t := After(configs, s, step);
    forall a | a in t.managers ensures ManagerOk(t.book.rows, a, t.managers[a]) {
      OthersStayOk(s.book.rows, t.book.rows, a, s.managers[a]);
    }
  }

  lemma StepKeeps(configs: map<Account, Config>, s: System, step: Step)
    requires SystemOk(configs, s) && Possible(configs, s, step)
    ensures SystemOk(configs, After(configs, s, step))
    ensures Extends(s.book, After(configs, s, step).book)
  {
    match step
    case Queue(_, _, _) => QueueKeeps(configs, s, step);
    case Perform(account) => PerformKeeps(configs, s, account);
    case Begin(_, _, _) =>
      BeginKeeps(configs, s, step);
      ExtendsItself(s.book);
    case Load(_, _) =>
      hide NonceSafe, LegalChain, Bounds;
      ExtendsItself(s.book);
    case Leave(_) =>
      hide NonceSafe, ManagerOk;
      ExtendsItself(s.book);
  }

  // Every interleaved run ------------------------------------------------------------------------

  /** A run by the states it goes through. */
  ghost predicate IsRun(configs: map<Account, Config>, states: seq<System>, steps: seq<Step>) {
    && |states| == |steps| + 1 && states[0] == IDLE_SYSTEM
    && forall i :: 0 <= i < |steps| ==>
         Possible(configs, states[i], steps[i]) && states[i + 1] == After(configs, states[i], steps[i])
  }

  lemma {:induction false} InterleavedSystemOk(configs: map<Account, Config>, states: seq<System>, steps: seq<Step>,
                                               i: nat)
    requires IsRun(configs, states, steps) && i <= |steps|
    ensures SystemOk(configs, states[i])
  {
    if i == 0 {
      IndexFollows(EMPTY_BOOK);
    } else {
      hide SystemOk, Possible, After;
      InterleavedSystemOk(configs, states, steps, i - 1);
      StepKeeps(configs, states[i - 1], steps[i - 1]);
    }
  }

  /** However managers and services interleave, and wherever processes die, nonces are safe in every state, and
      every loaded row that a manager has not come to is still the table's. */
  lemma InterleavedNonceSafety(configs: map<Account, Config>, states: seq<System>, steps: seq<Step>, i: nat)
    requires IsRun(configs, states, steps) && i <= |steps|
    ensures NonceSafe(states[i].book) && NonceIndexHolds(states[i].book.rows)
    ensures forall a :: a in states[i].managers ==> IsSnapshot(states[i].book.rows, a, states[i].managers[a].queue)
  {
    hide NonceSafe, NonceIndexHolds, IsSnapshot, Possible, After;
    InterleavedSystemOk(configs, states, steps, i);
    IndexFollows(states[i].book);
  }

  /** And between any moment and any later one, persisted nonces and final jobs stay as they are. */
  lemma {:induction false} InterleavedNoncesPersist(configs: map<Account, Config>, states: seq<System>,
                                                    steps: seq<Step>, i: nat, j: nat)
    requires IsRun(configs, states, steps) && i <= j <= |steps|
    ensures Extends(states[i].book, states[j].book)
    decreases j
  {
    hide SystemOk, Possible, After, Extends;
    if i == j {
      ExtendsItself(states[i].book);
    } else {
      InterleavedNoncesPersist(configs, states, steps, i, j - 1);
      InterleavedSystemOk(configs, states, steps, j - 1);
      StepKeeps(configs, states[j - 1], steps[j - 1]);
      ExtendsChain(states[i].book, states[j - 1].book, states[j].book);
    }
  }

  // Replacement under interleaving -----------------------------------------------------------------

  /** What is left of a job in hand keeps its broadcasts bounded and escalating. */
  ghost predicate StaysBounded(configs: map<Account, Config>, ordered: bool, s: System, account: Account)
    requires account in s.managers
  {
    var m := s.managers[account];
    m.effects != [] ==>
      && m.job in s.book.rows
      && InLineThroughout(Limit(configs, account), ordered, s.book.rows[m.job], s.book.History(m.job), m.effects)
  }

  ghost predicate BoundsOk(configs: map<Account, Config>, ordered: bool, s: System) {
    && AllInLine(configs, ordered, s.book)
    && forall a :: a in s.managers ==> StaysBounded(configs, ordered, s, a)
  }

  /** The node's exceptions carry a text, or no manager retries; and quotes are in order if that is asked. */
  ghost predicate StepGiven(configs: map<Account, Config>, ordered: bool, step: Step) {
    step.Begin? ==>
      && (HasErrorTexts(step.rpc) || forall a :: a in configs ==> configs[a].maximumRetries == 0)
      && (ordered ==> QuotesInOrder(step.rpc))
  }

  lemma {:induction false} HistoryShifts(row: TxJob, history: seq<Sent>, effects: seq<Effect>, n: nat)
    requires 0 < n <= |effects|
    ensures HistoryAfter(row, history, effects[..n]) ==
            HistoryAfter(if effects[0].Save? then effects[0].job else row,
                         if effects[0].Save? then history else history + [Sent(effects[0].tx, row)], effects[1..n])
  {
    if n > 1 {
      HistoryShifts(row, history, effects, n - 1);
      RowShifts(row, effects, n - 1);
      assert effects[..n][..n - 1] == effects[..n - 1] && effects[1..n][..n - 2] == effects[1..n - 1];
    } else {
      assert effects[..1][..0] == [] && effects[1..1] == [];
    }
  }

  lemma LineShifts(limit: nat, ordered: bool, row: TxJob, history: seq<Sent>, effects: seq<Effect>)
    requires effects != [] && InLineThroughout(limit, ordered, row, history, effects)
    ensures var next := if effects[0].Save? then effects[0].job else row;
            var sent := if effects[0].Save? then history else history + [Sent(effects[0].tx, row)];
            InLine(limit, ordered, next, sent) && InLineThroughout(limit, ordered, next, sent, effects[1..])
  {
    hide InLine;
    var next := if effects[0].Save? then effects[0].job else row;
    var sent := if effects[0].Save? then history else history + [Sent(effects[0].tx, row)];
    forall k | 0 <= k <= |effects[1..]|
      ensures InLine(limit, ordered, RowAfter(next, effects[1..][..k]), HistoryAfter(next, sent, effects[1..][..k]))
    {
      RowShifts(row, effects, k + 1);
      HistoryShifts(row, history, effects, k + 1);
      assert effects[1..][..k] == effects[1..k + 1];
    }
    assert effects[1..][..0] == [];
  }

  lemma PerformStaysBounded(configs: map<Account, Config>, ordered: bool, s: System, account: Account)
    requires SystemOk(configs, s) && BoundsOk(configs, ordered, s) && Possible(configs, s, Perform(account))
    ensures BoundsOk(configs, ordered, After(configs, s, Perform(account)))
  {
    hide InLineThroughout, InLine, LegalChain, NonceSafe, Bounds, LegalEffect;
    var m := s.managers[account];
    var rows, effect := s.book.rows, m.effects[0];
    assert StaysBounded(configs, ordered, s, account);
    LineShifts(Limit(configs, account), ordered, rows[m.job], s.book.History(m.job), m.effects);
    ChainShifts(m.highest, rows[m.job], m.effects);
    LegalEffectKeepsNonces(s.book, m.job, effect, m.highest);
    LegalKeepsAccount(m.highest, rows[m.job], effect);
    var t := After(configs, s, Perform(account));
    forall a | a in t.managers ensures StaysBounded(configs, ordered, t, a) {
      assert StaysBounded(configs, ordered, s, a);
      if a != account && s.managers[a].effects != [] {
        assert InHand(rows, a, s.managers[a]);
        assert t.book.History(s.managers[a].job) == s.book.History(s.managers[a].job);
      }
    }
    OneJobInLine(configs, ordered, s.book, t.book, m.job);
  }

  /** Changing one job, and that job only, within the line keeps all in line. */
  lemma OneJobInLine(configs: map<Account, Config>, ordered: bool, s: Book, t: Book, id: JobId)
    requires AllInLine(configs, ordered, s) && id in s.rows && t.rows.Keys == s.rows.Keys
    requires t.sent.Keys <= s.sent.Keys + {id}
    requires InLine(Limit(configs, t.rows[id].account), ordered, t.rows[id], t.History(id))
    requires forall a :: a in s.rows && a != id ==> t.rows[a] == s.rows[a] && t.History(a) == s.History(a)
    ensures AllInLine(configs, ordered, t)
  {
    hide InLine;
  }

  lemma BeginStaysBounded(configs: map<Account, Config>, ordered: bool, s: System, step: Step)
    requires SystemOk(configs, s) && BoundsOk(configs, ordered, s) && StepGiven(configs, ordered, step)
    requires step.Begin? && Possible(configs, s, step)
    ensures BoundsOk(configs, ordered, After(configs, s, step))
  {
    hide InLineThroughout, InLine, LegalChain, NonceSafe, Bounds, ProcessJob, IsHighest, HasErrorTexts;
    var m := s.managers[step.account];
    var id, row := m.queue[0].0, m.queue[0].1;
    SafeRow(s.book, id);
    assert s.book.rows[id] == row;
    ProcessInLine(configs[step.account], ordered, row, s.book.History(id), step.highest, step.rpc);
    var t := After(configs, s, step);
    forall a | a in t.managers ensures StaysBounded(configs, ordered, t, a) {
      if a != step.account {
        assert StaysBounded(configs, ordered, s, a);
      }
    }
  }

  lemma QueueStaysBounded(configs: map<Account, Config>, ordered: bool, s: System, step: Step)
    requires SystemOk(configs, s) && BoundsOk(configs, ordered, s) && step.Queue?
    ensures BoundsOk(configs, ordered, After(configs, s, step))
  {
    hide InLineThroughout, InLine, LegalChain, Bounds, NonceSafe;
    NextInLine(configs, ordered, s.book, Insert(step.id, step.account, step.call));
    var t := After(configs, s, step);
    forall a | a in t.managers ensures StaysBounded(configs, ordered, t, a) {
      assert StaysBounded(configs, ordered, s, a);
    }
  }

  lemma StepStaysBounded(configs: map<Account, Config>, ordered: bool, s: System, step: Step)
    requires SystemOk(configs, s) && BoundsOk(configs, ordered, s)
    requires StepGiven(configs, ordered, step) && Possible(configs, s, step)
    ensures BoundsOk(configs, ordered, After(configs, s, step))
  {
    match step
    case Queue(_, _, _) => QueueStaysBounded(configs, ordered, s, step);
    case Perform(account) => PerformStaysBounded(configs, ordered, s, account);
    case Begin(_, _, _) => BeginStaysBounded(configs, ordered, s, step);
    case _ =>
      hide InLineThroughout, AllInLine, SystemOk, IsSnapshot;
      var t := After(configs, s, step);
      forall a | a in t.managers ensures StaysBounded(configs, ordered, t, a) {
        if a in s.managers {
          assert StaysBounded(configs, ordered, s, a);
        }
      }
  }

  lemma {:induction false} InterleavedBoundsOk(configs: map<Account, Config>, ordered: bool, states: seq<System>,
                                               steps: seq<Step>, i: nat)
    requires IsRun(configs, states, steps) && i <= |steps|
    requires forall k :: 0 <= k < |steps| ==> StepGiven(configs, ordered, steps[k])
    ensures BoundsOk(configs, ordered, states[i])
  {
    if i > 0 {
      hide SystemOk, BoundsOk, Possible, After, StepGiven;
      InterleavedBoundsOk(configs, ordered, states, steps, i - 1);
      InterleavedSystemOk(configs, states, steps, i - 1);
      StepStaysBounded(configs, ordered, states[i - 1], steps[i - 1]);
    }
  }

  /** The bound, the single nonce and the escalation of broadcasts hold however managers and services interleave. */
  lemma InterleavedReplacement(configs: map<Account, Config>, ordered: bool, states: seq<System>, steps: seq<Step>,
                               i: nat)
    requires IsRun(configs, states, steps) && i <= |steps|
    requires forall k :: 0 <= k < |steps| ==> StepGiven(configs, ordered, steps[k])
    ensures var s := states[i].book;
            forall id :: id in s.sent ==>
              && id in s.rows
              && |s.sent[id]| <= Limit(configs, s.rows[id].account) + 1
              && Escalates(s.sent[id])
              && (forall k, l :: 0 <= k < |s.sent[id]| && 0 <= l < |s.sent[id]| ==>
                    s.sent[id][k].tx.nonce == s.sent[id][l].tx.nonce)
              && (ordered ==> forall k :: 0 <= k < |s.sent[id]| ==>
                    s.sent[id][k].tx.maxPriorityFeePerGas <= s.sent[id][k].tx.maxFeePerGas)
  {
    hide Possible, After, StepGiven, NonceSafe, AllInLine, ManagerOk, StaysBounded, Escalates;
    InterleavedSystemOk(configs, states, steps, i);
    InterleavedBoundsOk(configs, ordered, states, steps, i);
    ReplacementMeaning(configs, ordered, states[i].book);
  }
}
