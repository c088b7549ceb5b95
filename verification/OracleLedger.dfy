/** The oracle coordinator's lease and publication tables (store.go), each database transaction one atomic step. */
module OracleLedger {
  import opened Results
  import opened Transactions
  import Tx = TxJobs

  type Holder = string
  type Time = int

  /** The range of the `BIGINT` columns. */
  const MAX_BIGINT: nat := 0x7fff_ffff_ffff_ffff

  datatype Oracle = Oracle(chainId: nat, address: AddressBytes)

  datatype Feed = Feed(oracle: Oracle, asset: AddressBytes)

  datatype Lease = Lease(holder: Holder, leaseUntil: Time, fencingToken: nat)

  /** What the coordinator keeps of a lease it was granted. */
  datatype Fence = Fence(holder: Holder, fencingToken: nat)

  datatype Request = Request(feed: Feed, wallet: AddressBytes, price: nat, reportedAt: int, fence: Fence)

  datatype Publication = Publication(feed: Feed, price: nat, reportedAt: int, round: nat, fencingToken: nat)

  /** The call that the encoder packs into calldata. */
  datatype PublishPrice = PublishPrice(asset: AddressBytes, price: nat, reportedAt: int, round: nat)

  /** The transaction of a publication, keyed like it by feed and round. */
  datatype TxRow = TxRow(wallet: AddressBytes, call: PublishPrice, status: Tx.TxStatus)

  datatype State = State(
    leases: map<Oracle, Lease>,
    rounds: map<Feed, nat>,
    publications: seq<Publication>,
    txs: map<(Feed, nat), TxRow>)

  const INITIAL := State(map[], map[], [], map[])

  datatype Action =
    | Acquire(oracle: Oracle, holder: Holder, now: Time, seconds: int)
    | Publish(request: Request, now: Time, encoded: Result<()>)
    | TxChanges(id: (Feed, nat), status: Tx.TxStatus)

  /** The first lease has token 1; a lapsed one, or one's own, is taken with the next token. */
  function AcquireFence(s: State, oracle: Oracle, holder: Holder, now: Time, seconds: int): Result<(State, Fence)> {
    if oracle !in s.leases then
      Success((s.(leases := s.leases[oracle := Lease(holder, now + seconds, 1)]), Fence(holder, 1)))
    else
      var lease := s.leases[oracle];
      if lease.leaseUntil > now && lease.holder != holder then Failure(LeaseHeld) else
      if lease.fencingToken >= MAX_BIGINT then Failure(Overflow) else
      var next := Lease(holder, now + seconds, lease.fencingToken + 1);
      Success((s.(leases := s.leases[oracle := next]), Fence(holder, next.fencingToken)))
  }

  predicate HoldsLease(s: State, oracle: Oracle, fence: Fence, now: Time) {
    && oracle in s.leases
    && s.leases[oracle].holder == fence.holder
    && s.leases[oracle].fencingToken == fence.fencingToken
    && s.leases[oracle].leaseUntil > now
  }

  /** Some publication of the feed has a transaction that is still on its way. */
  predicate IsPending(s: State, feed: Feed) {
    exists i :: 0 <= i < |s.publications| && IsOnItsWay(s.publications[i], feed, s.txs)
  }

  predicate IsOnItsWay(p: Publication, feed: Feed, txs: map<(Feed, nat), TxRow>) {
    p.feed == feed && (feed, p.round) in txs && Tx.IsActive(txs[(feed, p.round)].status)
  }

  function LastRound(s: State, feed: Feed): nat {
    if feed in s.rounds then s.rounds[feed] else 0
  }

  function Recorded(request: Request, round: nat): Publication {
    Publication(request.feed, request.price, request.reportedAt, round, request.fence.fencingToken)
  }

  /** The call that publishes a recorded price. */
  function CallOf(p: Publication): PublishPrice {
    PublishPrice(p.feed.asset, p.price, p.reportedAt, p.round)
  }

  predicate IsTaken(publications: seq<Publication>, feed: Feed, round: nat) {
    exists i :: 0 <= i < |publications| && publications[i].feed == feed && publications[i].round == round
  }

  /** Advances the feed's round and inserts its transaction and publication, under the column checks and keys. */
  function InsertRound(s: State, request: Request, encoded: Result<()>): Result<(State, Option<Publication>)> {
    var feed := request.feed;
    if LastRound(s, feed) >= MAX_BIGINT then Failure(Overflow) else
    var round := LastRound(s, feed) + 1;
    var _ :- encoded;
    if (feed, round) in s.txs then Failure(UniqueViolation) else
    if request.price == 0 || request.reportedAt <= 0 || request.fence.fencingToken == 0 then
      Failure(CheckViolation) else
    if IsTaken(s.publications, feed, round) then Failure(UniqueViolation) else
    var publication := Recorded(request, round);
    Success((s.(rounds := s.rounds[feed := round], publications := s.publications + [publication],
                txs := s.txs[(feed, round) := TxRow(request.wallet, CallOf(publication), Tx.Pending)]),
             Some(publication)))
  }

  /** Creates the next round of a feed, with its transaction, or changes nothing: without the lease, while an
      earlier publication is on its way, or when the encoder or a column check fails. */
  function CreatePublication(s: State, request: Request, now: Time, encoded: Result<()>)
    : Result<(State, Option<Publication>)>
  {
    if !HoldsLease(s, request.feed.oracle, request.fence, now) then Failure(LeaseHeld) else
    if IsPending(s, request.feed) then Success((s, None)) else
    InsertRound(s, request, encoded)
  }

  function Next(s: State, action: Action): State {
    match action
    case Acquire(oracle, holder, now, seconds) =>
      var r := AcquireFence(s, oracle, holder, now, seconds);
      if r.Success? then r.value.0 else s
    case Publish(request, now, encoded) =>
      var r := CreatePublication(s, request, now, encoded);
      if r.Success? then r.value.0 else s
    case TxChanges(id, status) =>
      if id !in s.txs then s else s.(txs := s.txs[id := s.txs[id].(status := status)])
  }

  // The store as it runs ------------------------------------------------------------------------

  class Store {
    var leases: map<Oracle, Lease>
    var rounds: map<Feed, nat>
    var publications: seq<Publication>
    var txs: map<(Feed, nat), TxRow>

    ghost function Tables(): State
      reads this
    {
      State(leases, rounds, publications, txs)
    }

    constructor ()
      ensures Tables() == INITIAL
    {
      leases, rounds, publications, txs := map[], map[], [], map[];
    }

    /** Inserts the lease, or updates it where that is allowed. */
    method Acquire(oracle: Oracle, holder: Holder, now: Time, seconds: int) returns (r: Result<Fence>)
      modifies this`leases
      ensures Tables() == Next(old(Tables()), Action.Acquire(oracle, holder, now, seconds))
      ensures var a := AcquireFence(old(Tables()), oracle, holder, now, seconds);
              r == if a.Success? then Success(a.value.1) else Failure(a.error)
    {
      var fencingToken := 1;
      if oracle in leases {
        if !(leases[oracle].leaseUntil <= now || leases[oracle].holder == holder) {
          return Failure(LeaseHeld);
        }
        if leases[oracle].fencingToken >= MAX_BIGINT {
          return Failure(Overflow);
        }
        fencingToken := leases[oracle].fencingToken + 1;
      }
      leases := leases[oracle := Lease(holder, now + seconds, fencingToken)];
      return Success(Fence(holder, fencingToken));
    }

    /** Looks for a publication of the feed still on its way, and for a round already published. */
    method Scan(feed: Feed, round: nat) returns (pending: bool, taken: bool)
      ensures pending == IsPending(Tables(), feed)
      ensures taken == IsTaken(publications, feed, round)
    {
      pending, taken := false, false;
      for i := 0 to |publications|
        invariant pending == exists k :: 0 <= k < i && IsOnItsWay(publications[k], feed, txs)
        invariant taken == exists k :: 0 <= k < i && publications[k].feed == feed && publications[k].round == round
      {
        var p := publications[i];
        if IsOnItsWay(p, feed, txs) {
          pending := true;
        }
        if p.feed == feed && p.round == round {
          taken := true;
        }
      }
    }

    /** The inserts; any failure rolls them back. */
    method Insert(request: Request, encoded: Result<()>, taken: bool) returns (r: Result<Option<Publication>>)
      requires taken == IsTaken(publications, request.feed, LastRound(Tables(), request.feed) + 1)
      modifies this`rounds, this`txs, this`publications
      ensures match InsertRound(old(Tables()), request, encoded)
              case Success(done) => Tables() == done.0 && r == Success(done.1)
              case Failure(e) => Tables() == old(Tables()) && r == Failure(e)
    {
      hide IsTaken;
      var feed := request.feed;
      var savedRounds, savedTxs := rounds, txs;
      if feed !in rounds {
        rounds := rounds[feed := 0];
      }
      if rounds[feed] >= MAX_BIGINT {
        rounds := savedRounds;
        return Failure(Overflow);
      }
      rounds := rounds[feed := rounds[feed] + 1];
      var round := rounds[feed];
      var call := PublishPrice(feed.asset, request.price, request.reportedAt, round);
      if encoded.Failure? {
        rounds := savedRounds;
        return Failure(encoded.error);
      }
      if (feed, round) in txs {
        rounds := savedRounds;
        return Failure(UniqueViolation);
      }
      txs := txs[(feed, round) := TxRow(request.wallet, call, Tx.Pending)];
      if request.price == 0 || request.reportedAt <= 0 || request.fence.fencingToken == 0 {
        rounds, txs := savedRounds, savedTxs;
        return Failure(CheckViolation);
      }
      if taken {
        rounds, txs := savedRounds, savedTxs;
        return Failure(UniqueViolation);
      }
      var publication := Publication(feed, request.price, request.reportedAt, round, request.fence.fencingToken);
      publications := publications + [publication];
      return Success(Some(publication));
    }

    /** Checks the lease and that nothing is on its way, then inserts the next round. */
    method Publish(request: Request, now: Time, encoded: Result<()>) returns (r: Result<Option<Publication>>)
      modifies this`rounds, this`txs, this`publications
      ensures Tables() == Next(old(Tables()), Action.Publish(request, now, encoded))
      ensures var c := CreatePublication(old(Tables()), request, now, encoded);
              r == if c.Success? then Success(c.value.1) else Failure(c.error)
    {
      hide IsPending, IsTaken, InsertRound;
      var feed := request.feed;
      if !(feed.oracle in leases && leases[feed.oracle].holder == request.fence.holder
           && leases[feed.oracle].fencingToken == request.fence.fencingToken && leases[feed.oracle].leaseUntil > now) {
        return Failure(LeaseHeld);
      }
      var previous := if feed in rounds then rounds[feed] else 0;
      var pending, taken := Scan(feed, previous + 1);
      if pending {
        return Success(None);
      }
      r := Insert(request, encoded, taken);
    }
  }
}
