/** Fencing and rounds of the oracle coordinator over every run. */
module OracleSafety {
  import opened Results
  import opened OracleLedger
  import Tx = TxJobs

  /** One transaction of a run, with the state it found. The clock readings need not be in order. */
  datatype Step = Step(before: State, action: Action)

  ghost predicate IsRun(run: seq<Step>) {
    && (run != [] ==> run[0].before == INITIAL)
    && forall i :: 0 < i < |run| ==> run[i].before == Next(run[i - 1].before, run[i - 1].action)
  }

  function After(run: seq<Step>): State {
    if run == [] then INITIAL else Next(run[|run| - 1].before, run[|run| - 1].action)
  }

  /** The step got the oracle's lease. */
  predicate Acquires(step: Step, oracle: Oracle) {
    && step.action.Acquire? && step.action.oracle == oracle
    && AcquireFence(step.before, oracle, step.action.holder, step.action.now, step.action.seconds).Success?
  }

  function IssuedToken(step: Step, oracle: Oracle): nat
    requires Acquires(step, oracle)
  {
    AcquireFence(step.before, oracle, step.action.holder, step.action.now, step.action.seconds).value.1.fencingToken
  }

  /** The step created a publication. */
  predicate Publishes(step: Step, oracle: Oracle) {
    && step.action.Publish? && step.action.request.feed.oracle == oracle
    && var r := CreatePublication(step.before, step.action.request, step.action.now, step.action.encoded);
       r.Success? && r.value.1.Some?
  }

  // Publications -----------------------------------------------------------------------------

  /** How many publications a feed has. */
  function Count(publications: seq<Publication>, feed: Feed): nat {
    if publications == [] then 0 else
    var n := |publications| - 1;
    Count(publications[..n], feed) + if publications[n].feed == feed then 1 else 0
  }

  /** The rounds of every feed are 1, 2, 3, … in creation order. */
  ghost predicate RoundsInOrder(publications: seq<Publication>) {
    forall i :: 0 <= i < |publications| ==>
      publications[i].round == Count(publications[..i], publications[i].feed) + 1
  }

  /** The tokens used for an oracle never go down in creation order. */
  ghost predicate TokensInOrder(publications: seq<Publication>) {
    forall i, j :: 0 <= i < j < |publications| && publications[i].feed.oracle == publications[j].feed.oracle ==>
      publications[i].fencingToken <= publications[j].fencingToken
  }

  ghost predicate RoundsCounted(s: State) {
    forall feed :: LastRound(s, feed) == Count(s.publications, feed)
  }

  /** No publication used a token beyond its oracle's current one. */
  ghost predicate TokensIssued(publications: seq<Publication>, leases: map<Oracle, Lease>) {
    forall i :: 0 <= i < |publications| ==>
      && publications[i].feed.oracle in leases
      && publications[i].fencingToken <= leases[publications[i].feed.oracle].fencingToken
  }

  ghost predicate TxsHaveRounds(s: State) {
    forall id :: id in s.txs ==> 1 <= id.1 <= LastRound(s, id.0)
  }

  /** Every publication has its transaction, which publishes exactly its price under its round. */
  ghost predicate TxsPublish(s: State) {
    forall i :: 0 <= i < |s.publications| ==>
      && (s.publications[i].feed, s.publications[i].round) in s.txs
      && s.txs[(s.publications[i].feed, s.publications[i].round)].call == CallOf(s.publications[i])
  }

  ghost predicate StateOk(s: State) {
    && RoundsInOrder(s.publications)
    && TokensInOrder(s.publications)
    && RoundsCounted(s)
    && TokensIssued(s.publications, s.leases)
    && TxsHaveRounds(s)
    && TxsPublish(s)
  }

  lemma {:induction false} CountMono(publications: seq<Publication>, i: nat, feed: Feed)
    requires i <= |publications|
    ensures Count(publications[..i], feed) <= Count(publications, feed)
  {
    if i < |publications| {
      var n := |publications| - 1;
      CountMono(publications[..n], i, feed);
      assert publications[..n][..i] == publications[..i];
    } else {
      assert publications[..i] == publications;
    }
  }

  lemma CountBelow(publications: seq<Publication>, i: nat, feed: Feed)
    requires i < |publications| && publications[i].feed == feed
    ensures Count(publications[..i], feed) < Count(publications, feed)
  {
    CountMono(publications, i + 1, feed);
    assert publications[..i + 1][..i] == publications[..i];
  }

  lemma RoundsExtend(publications: seq<Publication>, p: Publication)
    requires RoundsInOrder(publications) && p.round == Count(publications, p.feed) + 1
    ensures RoundsInOrder(publications + [p])
  {
    var longer := publications + [p];
    assert longer[..|publications|] == publications;
    forall i | 0 <= i < |longer| ensures longer[i].round == Count(longer[..i], longer[i].feed) + 1 {
      if i < |publications| {
        assert longer[..i] == publications[..i] && longer[i] == publications[i];
      }
    }
  }

  lemma CountExtends(publications: seq<Publication>, p: Publication, feed: Feed)
    ensures Count(publications + [p], feed) == Count(publications, feed) + if p.feed == feed then 1 else 0
  {
    assert (publications + [p])[..|publications|] == publications;
  }

  /** What a successful creation changes. */
  lemma PublicationEffect(s: State, request: Request, now: Time, encoded: Result<()>)
    ensures var r := CreatePublication(s, request, now, encoded);
            && (r.Success? && r.value.1.None? ==> r.value.0 == s)
            && (r.Success? && r.value.1.Some? ==>
                  && var t, round := r.value.0, LastRound(s, request.feed) + 1;
                     && HoldsLease(s, request.feed.oracle, request.fence, now)
                     && t.leases == s.leases && t.rounds == s.rounds[request.feed := round]
                     && t.publications == s.publications + [Recorded(request, round)]
                     && t.txs.Keys == s.txs.Keys + {(request.feed, round)}
                     && (request.feed, round) !in s.txs
                     && t.txs[(request.feed, round)].call == CallOf(Recorded(request, round))
                     && forall id :: id in s.txs ==> t.txs[id] == s.txs[id])
  {
    hide IsPending;
  }

  /** A publication extends the rounds and the tokens. */
  lemma PublishKeepsState(s: State, action: Action)
    requires StateOk(s) && action.Publish?
    ensures StateOk(Next(s, action))
  {
    hide CreatePublication, RoundsInOrder, Count;
    var request := action.request;
    var r := CreatePublication(s, request, action.now, action.encoded);
    PublicationEffect(s, request, action.now, action.encoded);
    if r.Success? && r.value.1.Some? {
      var t, p := r.value.0, Recorded(request, LastRound(s, request.feed) + 1);
      RoundsExtend(s.publications, p);
      forall feed ensures LastRound(t, feed) == Count(t.publications, feed) {
        CountExtends(s.publications, p, feed);
        assert LastRound(s, feed) == Count(s.publications, feed);
      }
    }
  }

  /** The unique keys never object to the next round. */
  lemma NextRoundIsFree(s: State, feed: Feed)
    requires StateOk(s)
    ensures (feed, LastRound(s, feed) + 1) !in s.txs
    ensures forall i :: 0 <= i < |s.publications| && s.publications[i].feed == feed ==>
              s.publications[i].round <= LastRound(s, feed)
  {
    forall i | 0 <= i < |s.publications| && s.publications[i].feed == feed
      ensures s.publications[i].round <= LastRound(s, feed)
    {
      CountBelow(s.publications, i, feed);
    }
  }

  lemma OthersKeepState(s: State, action: Action)
    requires StateOk(s) && !action.Publish?
    ensures StateOk(Next(s, action))
  {
    hide RoundsInOrder, TokensInOrder, Count;
    var t := Next(s, action);
    assert t.publications == s.publications && t.rounds == s.rounds;
    forall feed ensures LastRound(t, feed) == Count(t.publications, feed) {
      assert LastRound(s, feed) == Count(s.publications, feed);
    }
  }

  lemma RunPrefix(run: seq<Step>, k: nat)
    requires IsRun(run) && k < |run|
    ensures IsRun(run[..k]) && After(run[..k]) == run[k].before
  {
  }

  /** In every run: each feed's rounds are 1, 2, 3, … without gaps, the tokens used for an oracle never go down in
      creation order, none exceeds the token of the current lease, and the transactions are exactly one per round,
      each publishing the price recorded for it. */
  lemma {:induction false} PublicationsInOrder(run: seq<Step>)
    requires IsRun(run)
    ensures StateOk(After(run))
  {
    if run == [] {
      assert StateOk(INITIAL);
    } else {
      hide Next, StateOk;
      var n := |run| - 1;
      RunPrefix(run, n);
      PublicationsInOrder(run[..n]);
      if run[n].action.Publish? {
        PublishKeepsState(run[n].before, run[n].action);
      } else {
        OthersKeepState(run[n].before, run[n].action);
      }
    }
  }

  /** No publication is ever refused because its round, its transaction or its id already exists. */
  lemma NoRoundIsTaken(run: seq<Step>, k: nat)
    requires IsRun(run) && k < |run| && run[k].action.Publish? && run[k].action.encoded.Success?
    ensures CreatePublication(run[k].before, run[k].action.request, run[k].action.now, run[k].action.encoded)
            != Failure(UniqueViolation)
  {
    hide StateOk, Next, IsPending;
    RunPrefix(run, k);
    PublicationsInOrder(run[..k]);
    NextRoundIsFree(run[k].before, run[k].action.request.feed);
  }

  // Leases -----------------------------------------------------------------------------------

  ghost predicate LatestAcquire(run: seq<Step>, oracle: Oracle, i: int) {
    0 <= i < |run| && Acquires(run[i], oracle) && forall k :: i < k < |run| ==> !Acquires(run[k], oracle)
  }

  /** The lease on record is the one the latest acquisition got. */
  ghost predicate HeldBy(run: seq<Step>, lease: Lease, oracle: Oracle, i: int) {
    && LatestAcquire(run, oracle, i)
    && lease == Lease(run[i].action.holder, run[i].action.now + run[i].action.seconds, IssuedToken(run[i], oracle))
  }

  ghost predicate LeaseTold(run: seq<Step>, oracle: Oracle) {
    var s := After(run);
    if oracle !in s.leases then forall i :: 0 <= i < |run| ==> !Acquires(run[i], oracle) else
    && (forall i :: 0 <= i < |run| && Acquires(run[i], oracle) ==>
      IssuedToken(run[i], oracle) <= s.leases[oracle].fencingToken)
    && (exists i :: HeldBy(run, s.leases[oracle], oracle, i))
  }

  /** What a step does to an oracle's lease. */
  lemma LeaseMoves(step: Step, oracle: Oracle)
    ensures var before, after := step.before.leases, Next(step.before, step.action).leases;
            if Acquires(step, oracle) then
              && oracle in after
              && after[oracle] == Lease(step.action.holder, step.action.now + step.action.seconds,
                                        IssuedToken(step, oracle))
              && (oracle in before ==>
                    && IssuedToken(step, oracle) == before[oracle].fencingToken + 1
                    && (before[oracle].leaseUntil <= step.action.now || before[oracle].holder == step.action.holder))
            else (oracle in after <==> oracle in before) && (oracle in before ==> after[oracle] == before[oracle])
  {
  }

  lemma AfterStep(run: seq<Step>, step: Step)
    ensures After(run + [step]) == Next(step.before, step.action)
  {
  }

  lemma LeaseStaysTold(run: seq<Step>, step: Step, oracle: Oracle)
    requires After(run) == step.before && LeaseTold(run, oracle)
    ensures LeaseTold(run + [step], oracle)
  {
    hide Next, Acquires, IssuedToken, After;
    var longer := run + [step];
    AfterStep(run, step);
    LeaseMoves(step, oracle);
    if Acquires(step, oracle) {
      assert HeldBy(longer, After(longer).leases[oracle], oracle, |run|);
    } else if oracle in step.before.leases {
      var i :| HeldBy(run, step.before.leases[oracle], oracle, i);
      assert longer[i] == run[i];
      assert HeldBy(longer, After(longer).leases[oracle], oracle, i);
    }
  }

  lemma {:induction false} LeaseIsTold(run: seq<Step>, oracle: Oracle)
    requires IsRun(run)
    ensures LeaseTold(run, oracle)
  {
    if run != [] {
      hide Next, LeaseTold, IsRun;
      var n := |run| - 1;
      RunPrefix(run, n);
      LeaseIsTold(run[..n], oracle);
      assert run == run[..n] + [run[n]];
      LeaseStaysTold(run[..n], run[n], oracle);
    }
  }

  /** Each acquisition of an oracle's lease is given a strictly greater token than every earlier one. */
  lemma TokensIncrease(run: seq<Step>, i: nat, k: nat, oracle: Oracle)
    requires IsRun(run) && i < k < |run| && Acquires(run[i], oracle) && Acquires(run[k], oracle)
    ensures IssuedToken(run[i], oracle) < IssuedToken(run[k], oracle)
  {
    hide Next, Acquires, IssuedToken;
    RunPrefix(run, k);
    LeaseIsTold(run[..k], oracle);
    LeaseMoves(run[k], oracle);
    assert run[..k][i] == run[i];
  }

  /** The lease passes to a different holder only once the previous one has run out by the clock read. */
  lemma OwnershipPassesAfterExpiry(run: seq<Step>, i: nat, k: nat, oracle: Oracle)
    requires IsRun(run) && i < k < |run| && LatestAcquire(run[..k], oracle, i) && Acquires(run[k], oracle)
    requires run[i].action.holder != run[k].action.holder
    ensures run[i].action.now + run[i].action.seconds <= run[k].action.now
  {
    hide Next, Acquires, IssuedToken;
    RunPrefix(run, k);
    LeaseIsTold(run[..k], oracle);
    LeaseMoves(run[k], oracle);
    assert run[..k][i] == run[i];
    var j :| HeldBy(run[..k], run[k].before.leases[oracle], oracle, j);
    assert i == j by {
      assert !(i < j) && !(j < i);
    }
  }

  /** A publication is made under the latest token issued, by its holder, before the lease runs out: never with a
      token after a newer one was issued. */
  lemma OnlyLatestTokenPublishes(run: seq<Step>, k: nat, oracle: Oracle)
    requires IsRun(run) && k < |run| && Publishes(run[k], oracle)
    ensures exists i ::
              && LatestAcquire(run[..k], oracle, i)
              && run[k].action.request.fence == Fence(run[i].action.holder, IssuedToken(run[i], oracle))
              && run[k].action.now < run[i].action.now + run[i].action.seconds
    ensures forall i :: 0 <= i < k && Acquires(run[i], oracle) ==>
              IssuedToken(run[i], oracle) <= run[k].action.request.fence.fencingToken
  {
    hide Next, Acquires, IssuedToken, IsPending;
    RunPrefix(run, k);
    LeaseIsTold(run[..k], oracle);
    var i :| HeldBy(run[..k], run[k].before.leases[oracle], oracle, i);
    assert run[..k][i] == run[i];
    forall j | 0 <= j < k && Acquires(run[j], oracle)
      ensures IssuedToken(run[j], oracle) <= run[k].action.request.fence.fencingToken
    {
      assert run[..k][j] == run[j];
    }
  }

  // What decides a transaction -------------------------------------------------------------------

  /** A transaction that may still change the chain. */
  predicate IsUnsettled(status: Tx.TxStatus) {
    status == Tx.Pending || status == Tx.Submitted || status == Tx.Included
  }

  /** An earlier publication of the feed is on its way. */
  ghost predicate HasUnsettled(s: State, feed: Feed) {
    exists i :: && 0 <= i < |s.publications| && s.publications[i].feed == feed
                && (feed, s.publications[i].round) in s.txs
                && IsUnsettled(s.txs[(feed, s.publications[i].round)].status)
  }

  predicate IsFenced(s: State, request: Request, now: Time) {
    && request.feed.oracle in s.leases
    && s.leases[request.feed.oracle].holder == request.fence.holder
    && s.leases[request.feed.oracle].fencingToken == request.fence.fencingToken
    && now < s.leases[request.feed.oracle].leaseUntil
  }

  predicate IsStorable(request: Request) {
    request.price > 0 && request.reportedAt > 0 && request.fence.fencingToken > 0
  }

  /** After any run, a request creates the feed's next round, with exactly its price and its call, if and only if its
      lease holds, no earlier publication is on its way, and the row can be encoded and stored; otherwise nothing
      changes, for the reason given. */
  lemma PublishDecided(run: seq<Step>, request: Request, now: Time, encoded: Result<()>)
    requires IsRun(run)
    ensures var s, feed := After(run), request.feed;
            var round := Count(s.publications, feed) + 1;
            match CreatePublication(s, request, now, encoded)
            case Success((t, Some(p))) =>
              && IsFenced(s, request, now) && !HasUnsettled(s, feed) && encoded.Success? && IsStorable(request)
              && round <= MAX_BIGINT
              && p == Publication(feed, request.price, request.reportedAt, round, request.fence.fencingToken)
              && t == State(s.leases, s.rounds[feed := round], s.publications + [p],
                            s.txs[(feed, round) := TxRow(request.wallet, PublishPrice(feed.asset, request.price,
                                                         request.reportedAt, round), Tx.Pending)])
            case Success((t, None)) => t == s && IsFenced(s, request, now) && HasUnsettled(s, feed)
            case Failure(e) =>
              || (e == LeaseHeld && !IsFenced(s, request, now))
              || (e == Overflow && round > MAX_BIGINT)
              || encoded == Failure(e)
              || (e == CheckViolation && !IsStorable(request))
  {
    hide After, IsRun, StateOk, Count;
    var s, feed := After(run), request.feed;
    PublicationsInOrder(run);
    NextRoundIsFree(s, feed);
    RoundIsCount(s, feed);
    PendingIsUnsettled(s, feed);
    assert !IsTaken(s.publications, feed, LastRound(s, feed) + 1);
    hide IsPending, HasUnsettled, IsTaken;
  }

  lemma RoundIsCount(s: State, feed: Feed)
    requires StateOk(s)
    ensures LastRound(s, feed) == Count(s.publications, feed)
  {
    hide RoundsInOrder, TokensInOrder, Count;
  }

  lemma PendingIsUnsettled(s: State, feed: Feed)
    ensures IsPending(s, feed) <==> HasUnsettled(s, feed)
  {
    assert forall i :: 0 <= i < |s.publications| ==>
      (IsOnItsWay(s.publications[i], feed, s.txs) <==>
       && s.publications[i].feed == feed && (feed, s.publications[i].round) in s.txs
       && IsUnsettled(s.txs[(feed, s.publications[i].round)].status));
  }

  /** A lease is granted if and only if there is none, it has run out, or it is the holder's own; it then runs for the
      time asked for under the next token, and no other lease changes. */
  lemma AcquireDecided(s: State, oracle: Oracle, holder: Holder, now: Time, seconds: int)
    ensures var token := if oracle in s.leases then s.leases[oracle].fencingToken + 1 else 1;
            var open := oracle !in s.leases || s.leases[oracle].leaseUntil <= now || s.leases[oracle].holder == holder;
            match AcquireFence(s, oracle, holder, now, seconds)
            case Success((t, fence)) =>
              && open && fence == Fence(holder, token) && (oracle in s.leases ==> token <= MAX_BIGINT)
              && t == s.(leases := s.leases[oracle := Lease(holder, now + seconds, token)])
            case Failure(e) => (e == LeaseHeld && !open) || (e == Overflow && token > MAX_BIGINT)
  {
  }
}
