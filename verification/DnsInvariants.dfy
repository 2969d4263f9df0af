/** What every interleaving of the DNS cache keeps true. */
module DnsInvariants {
  import opened Options
  import opened DnsModel
  import opened DnsProtocol

  // ---- stale answers keep the horizon they were born with ----

  /** A carried stale answer is an answer a run once produced for this key, and its horizon is that
      answer's own expiry plus the stale window. */
  ghost predicate StaleOk(p: Policy, produced: set<(Key, Result)>, k: Key, stale: Result, staleUntil: Time) {
    |stale.addrs| > 0 ==>
      (k, stale) in produced && stale.rcode == Success && staleUntil == stale.expiresAt + p.staleWindow
  }

  ghost predicate EntryOk(p: Policy, produced: set<(Key, Result)>, k: Key, e: Entry) {
    && e.result.rcode != Other
    && (e.err == NoErr <==> e.result.rcode != Transient)
    && (|e.result.addrs| > 0 ==> e.result.rcode == Success) && (|e.stale.addrs| > 0 ==> e.result.rcode == Transient)
    && (e.result.rcode == Success ==>
          |e.result.addrs| > 0 && (k, e.result) in produced && |e.stale.addrs| == 0 &&
          e.staleUntil == e.result.expiresAt + p.staleWindow)
    && StaleOk(p, produced, k, e.stale, e.staleUntil)
  }

  /** A good answer is one a run produced for this key (or an authoritative negative), and the clock reading
      it was judged by lies before its expiry, or, for addresses where stale serving is on, inside the horizon. */
  ghost predicate AnswerOk(p: Policy, produced: set<(Key, Result)>, k: Key, a: Answer) {
    a.outcome == Good ==>
      && a.result.rcode in {Success, NxDomain, NoData}
      && (a.result.rcode != Success ==> a.readAt < a.result.expiresAt)
      && (a.result.rcode == Success ==>
            && |a.result.addrs| > 0 && (k, a.result) in produced
            && (a.readAt < a.result.expiresAt ||
                (p.staleTransient && a.readAt < a.result.expiresAt + p.staleWindow)))
  }

  ghost predicate ShardOk(c: Config, produced: set<(Key, Result)>, shard: Shard, i: nat)
    requires ValidPolicy(c.policy)
  {
    && Accounted(shard)
    && shard.positiveCap == DistributedCapacity(c.policy.positiveCapacity, ShardCount(c.policy), i)
    && shard.negativeCap == DistributedCapacity(c.policy.negativeCapacity, ShardCount(c.policy), i)
    && (forall k :: k in shard.entries ==> Home(c, k) == i && EntryOk(c.policy, produced, k, shard.entries[k]))
  }

  ghost predicate ShardsOk(c: Config, s: Cache)
    requires Shaped(c, s)
  {
    forall i :: 0 <= i < |s.shards| ==> ShardOk(c, s.produced, s.shards[i], i)
  }

  // ---- flights ----

  /** An entry built at `at`: fresh then, and what it carries stale was inside its horizon then. */
  ghost predicate BuiltOk(p: Policy, s: Cache, k: Key, e: Entry, at: Time) {
    && EntryOk(p, s.produced, k, e) && at < e.result.expiresAt && at <= s.now
    && (|e.stale.addrs| > 0 ==> at < e.staleUntil)
  }

  ghost predicate PhaseOk(p: Policy, s: Cache, f: Flight) {
    match f.phase
    case Running => true
    case Resolved(e, at) => BuiltOk(p, s, f.key, e, at)
    case Stored(e, at) => BuiltOk(p, s, f.key, e, at)
    case Done(a) => AnswerOk(p, s.produced, f.key, a) && a.readAt <= s.now
  }

  ghost predicate FlightOk(p: Policy, s: Cache, f: Flight) {
    && PhaseOk(p, s, f)
    && StaleOk(p, s.produced, f.key, f.stale, f.staleUntil)
    && f.readAt <= s.now
    && (f.serveStale ==> p.staleTransient && |f.stale.addrs| > 0 && f.readAt < f.staleUntil)
  }

  /** The table holds exactly the unfinished flights, one per key. */
  ghost predicate FlightsOk(c: Config, s: Cache) {
    && (forall f :: 0 <= f < |s.flights| ==> FlightOk(c.policy, s, s.flights[f]))
    && (forall k :: k in s.table ==>
          s.table[k] < |s.flights| && s.flights[s.table[k]].key == k && !s.flights[s.table[k]].phase.Done?)
    && (forall f :: 0 <= f < |s.flights| && !s.flights[f].phase.Done? ==>
          s.flights[f].key in s.table && s.table[s.flights[f].key] == f)
  }

  // ---- pending accounting ----

  /** Each egress's counter is its number of unfinished flights, at most the cap, and absent at zero. */
  ghost predicate PendingOk(c: Config, s: Cache) {
    && (forall e :: Pending(s, e) == |InFlight(s.table, e)| <= c.policy.maxPending)
    && (forall e :: e in s.pending ==> s.pending[e] > 0)
  }

  // ---- the flight lock ----

  ghost predicate NoFreshEntry(c: Config, s: Cache, k: Key, t: Time)
    requires Shaped(c, s)
  {
    k in HomeShard(c, s, k).entries ==> !Fresh(HomeShard(c, s, k).entries[k], t)
  }

  predicate HoldsLock(caller: Caller) { caller.Peeking? || caller.Found? || caller.Creating? }

  /** Only the lock holder is between its table look-up and its flight's creation, and what it saw still holds. */
  ghost predicate LockOk(c: Config, s: Cache)
    requires Shaped(c, s)
  {
    (s.lock.Some? ==> s.lock.value in s.callers && HoldsLock(s.callers[s.lock.value])) &&
    forall id :: id in s.callers && HoldsLock(s.callers[id]) ==>
      && s.lock == Some(id)
      && s.callers[id].req.key !in s.table
      && s.callers[id].peekAt <= s.now
      && (s.callers[id].Creating? ==> NoFreshEntry(c, s, s.callers[id].req.key, s.callers[id].peekAt))
  }

  // ---- callers ----

  ghost predicate RequestOk(p: Policy, s: Cache, req: Request) {
    && req.readAt <= s.now
    && StaleOk(p, s.produced, req.key, req.stale, req.staleUntil)
    && (req.background ==> p.staleTransient && |req.stale.addrs| > 0 && req.readAt < req.staleUntil)
  }

  ghost predicate CallerOk(p: Policy, s: Cache, caller: Caller) {
    match caller
    case Asked(k, readAt) => readAt <= s.now
    case Starting(req) => RequestOk(p, s, req)
    case Peeking(req, _) => RequestOk(p, s, req)
    case Found(req, peekAt, e) => RequestOk(p, s, req) && EntryOk(p, s.produced, req.key, e) && Fresh(e, peekAt)
    case Creating(req, _) => RequestOk(p, s, req)
    case Holding(req, f) => RequestOk(p, s, req) && f < |s.flights| && s.flights[f].key == req.key
    case Answered(k, a) => AnswerOk(p, s.produced, k, a) && a.readAt <= s.now
  }

  ghost predicate CallersOk(c: Config, s: Cache) {
    forall id :: id in s.callers ==> CallerOk(c.policy, s, s.callers[id])
  }

  ghost predicate Inv(c: Config, s: Cache) {
    Shaped(c, s) && ShardsOk(c, s) && FlightsOk(c, s) && PendingOk(c, s) && LockOk(c, s) && CallersOk(c, s)
  }

  // ---- the invariant holds at start ----

  lemma InitInv(c: Config)
    requires ValidPolicy(c.policy)
    ensures Inv(c, Init(c))
  {
    var s, n := Init(c), ShardCount(c.policy);
    CapacitiesSumToTotal(c.policy.positiveCapacity, n);
    CapacitiesSumToTotal(c.policy.negativeCapacity, n);
    forall i | 0 <= i < |s.shards| ensures ShardOk(c, s.produced, s.shards[i], i) {
      assert forall b: bool :: Members(s.shards[i], b) == {};
    }
    forall e ensures InFlight(s.table, e) == {} {}
  }

  // ---- steps that only move time or callers ----

  lemma TickInv(c: Config, s: Cache, to: Time)
    requires Inv(c, s) && s.now <= to
    ensures Inv(c, Apply(c, s, Tick(to)))
  {
    var s' := Apply(c, s, Tick(to));
    forall f | 0 <= f < |s'.flights| ensures FlightOk(c.policy, s', s'.flights[f]) {
      assert FlightOk(c.policy, s, s.flights[f]);
    }
    forall id | id in s'.callers ensures CallerOk(c.policy, s', s'.callers[id]) {
      assert CallerOk(c.policy, s, s.callers[id]);
    }
  }

  /** Replacing one caller, holding no lock, by a caller in good order. */
  lemma CallerStepInv(c: Config, s: Cache, id: nat, caller: Caller)
    requires Inv(c, s) && CallerOk(c.policy, s, caller) && !HoldsLock(caller)
    requires id in s.callers ==> !HoldsLock(s.callers[id])
    ensures Inv(c, WithCaller(s, id, caller))
  {
    var s' := WithCaller(s, id, caller);
    forall f | 0 <= f < |s'.flights| ensures FlightOk(c.policy, s', s'.flights[f]) {
      assert FlightOk(c.policy, s, s.flights[f]);
    }
    forall i | i in s'.callers ensures CallerOk(c.policy, s', s'.callers[i]) {
      if i != id { assert CallerOk(c.policy, s, s.callers[i]); }
    }
    forall i | i in s'.callers && HoldsLock(s'.callers[i])
      ensures s'.callers[i].Creating? ==> NoFreshEntry(c, s', s'.callers[i].req.key, s'.callers[i].peekAt)
    {}
  }

  // ---- steps on one shard ----

  /** Entries other than `except` are at most lost, never changed. */
  ghost predicate OnlyLoses(before: Shard, after: Shard, except: Option<Key>) {
    forall k :: k in after.entries && Some(k) != except ==> k in before.entries && after.entries[k] == before.entries[k]
  }

  lemma ShardStepInv(c: Config, s: Cache, k: Key, shard: Shard, except: Option<Key>)
    requires Inv(c, s) && ShardOk(c, s.produced, shard, Home(c, k))
    requires OnlyLoses(HomeShard(c, s, k), shard, except)
    requires except.Some? ==> except.value in s.table
    ensures Inv(c, WithShard(c, s, k, shard))
  {
    var s' := WithShard(c, s, k, shard);
    forall f | 0 <= f < |s'.flights| ensures FlightOk(c.policy, s', s'.flights[f]) {
      assert FlightOk(c.policy, s, s.flights[f]);
    }
    forall id | id in s'.callers ensures CallerOk(c.policy, s', s'.callers[id]) {
      assert CallerOk(c.policy, s, s.callers[id]);
    }
    forall id | id in s'.callers && s'.callers[id].Creating?
      ensures NoFreshEntry(c, s', s'.callers[id].req.key, s'.callers[id].peekAt)
    {
      var key := s'.callers[id].req.key;
      assert NoFreshEntry(c, s, key, s.callers[id].peekAt);
      if Home(c, key) == Home(c, k) {
        assert HomeShard(c, s', key) == shard && HomeShard(c, s, key) == HomeShard(c, s, k);
      } else {
        assert HomeShard(c, s', key) == HomeShard(c, s, key);
      }
    }
  }

  lemma DropShardOk(c: Config, s: Cache, k: Key)
    requires Shaped(c, s) && ShardsOk(c, s)
    ensures ShardOk(c, s.produced, Drop(HomeShard(c, s, k), k), Home(c, k))
  {
    var shard := HomeShard(c, s, k);
    assert ShardOk(c, s.produced, shard, Home(c, k));
    if k in shard.entries { DeleteAccounted(shard, k); }
  }

  lemma InvalidateInv(c: Config, s: Cache, k: Key)
    requires Inv(c, s)
    ensures Inv(c, Apply(c, s, Invalidate(k)))
  {
    DropShardOk(c, s, k);
    ShardStepInv(c, s, k, Drop(HomeShard(c, s, k), k), None);
  }

  lemma AfterTakeOk(c: Config, s: Cache, k: Key, now: Time, e: Entry, found: bool)
    requires ValidPolicy(c.policy) && now <= s.now
    requires EntryOk(c.policy, s.produced, k, e) || (e == NO_ENTRY && !found)
    requires found ==> Fresh(e, now)
    ensures var caller := AfterTake(c.policy, k, now, e, found);
      CallerOk(c.policy, s, caller) && !HoldsLock(caller)
  {}

  /** takeEntry's part in the shard. */
  lemma TakeShardInv(c: Config, s: Cache, k: Key, readAt: Time)
    requires Inv(c, s)
    ensures Inv(c, WithShard(c, s, k, Take(c.policy, HomeShard(c, s, k), k, readAt).2))
  {
    var shard := HomeShard(c, s, k);
    var shard' := Take(c.policy, shard, k, readAt).2;
    assert ShardOk(c, s.produced, shard, Home(c, k));
    DropShardOk(c, s, k);
    assert shard' == shard || shard' == Drop(shard, k);
    ShardStepInv(c, s, k, shard', None);
  }

  /** What the caller makes of the entry it took. */
  lemma TakenOk(c: Config, s: Cache, k: Key, readAt: Time)
    requires Inv(c, s) && readAt <= s.now
    ensures var (e, found, _) := Take(c.policy, HomeShard(c, s, k), k, readAt);
      var caller := AfterTake(c.policy, k, readAt, e, found);
      CallerOk(c.policy, s, caller) && !HoldsLock(caller)
  {
    assert ShardOk(c, s.produced, HomeShard(c, s, k), Home(c, k));
    var (e, found, _) := Take(c.policy, HomeShard(c, s, k), k, readAt);
    AfterTakeOk(c, s, k, readAt, e, found);
  }

  lemma TakeInv(c: Config, s: Cache, id: nat)
    requires Inv(c, s) && Enabled(c, s, TakeEntry(id))
    ensures Inv(c, Apply(c, s, TakeEntry(id)))
  {
    var Asked(k, readAt) := s.callers[id];
    assert CallerOk(c.policy, s, s.callers[id]);
    TakeShardInv(c, s, k, readAt);
    TakenOk(c, s, k, readAt);
    var (e, found, shard') := Take(c.policy, HomeShard(c, s, k), k, readAt);
    CallerStepInv(c, WithShard(c, s, k, shard'), id, AfterTake(c.policy, k, readAt, e, found));
  }

  // ---- the flight table ----

  lemma SameFlights(c: Config, s: Cache, s': Cache)
    requires FlightsOk(c, s) && s'.flights == s.flights && s'.table == s.table && s'.produced == s.produced &&
      s'.now == s.now
    ensures FlightsOk(c, s')
  {
    forall f | 0 <= f < |s'.flights| ensures FlightOk(c.policy, s', s'.flights[f]) {
      assert FlightOk(c.policy, s, s.flights[f]);
    }
  }

  lemma LockedCallers(c: Config, s: Cache, id: nat)
    requires Inv(c, s) && Enabled(c, s, LockFlights(id)) && s.callers[id].req.key !in s.table
    ensures CallersOk(c, Apply(c, s, LockFlights(id)))
  {
    var s' := Apply(c, s, LockFlights(id));
    forall i | i in s'.callers ensures CallerOk(c.policy, s', s'.callers[i]) {
      if i != id { assert CallerOk(c.policy, s, s.callers[i]); } else { assert CallerOk(c.policy, s, s.callers[id]); }
    }
  }

  lemma LockFlightsInv(c: Config, s: Cache, id: nat)
    requires Inv(c, s) && Enabled(c, s, LockFlights(id))
    ensures Inv(c, Apply(c, s, LockFlights(id)))
  {
    var req := s.callers[id].req;
    assert CallerOk(c.policy, s, s.callers[id]);
    if req.key in s.table {
      CallerStepInv(c, s, id, Holding(req, s.table[req.key]));
    } else {
      LockedCallers(c, s, id);
      SameFlights(c, s, Apply(c, s, LockFlights(id)));
    }
  }

  /** Ending the lock holder's critical section: it gives up the lock and becomes `caller`, possibly
      after adding one flight that is either finished or entered in the table. */
  lemma ReleaseCallersInv(c: Config, s: Cache, s': Cache, id: nat, caller: Caller)
    requires Inv(c, s) && id in s.callers && HoldsLock(s.callers[id])
    requires s'.callers == s.callers[id := caller] && !HoldsLock(caller)
    requires s'.now == s.now && s'.produced == s.produced && s'.shards == s.shards && s'.lock == None
    requires s.flights <= s'.flights
    requires CallerOk(c.policy, s', caller)
    ensures Shaped(c, s') && ShardsOk(c, s') && CallersOk(c, s') && LockOk(c, s')
  {
    forall i | i in s'.callers ensures CallerOk(c.policy, s', s'.callers[i]) {
      if i != id { assert CallerOk(c.policy, s, s.callers[i]); }
    }
  }

  lemma AppendFlightInv(c: Config, s: Cache, s': Cache, f: Flight)
    requires FlightsOk(c, s) && s'.flights == s.flights + [f] && s'.now == s.now && s'.produced == s.produced
    requires FlightOk(c.policy, s', f)
    requires if f.phase.Done? then s'.table == s.table
             else f.key !in s.table && s'.table == s.table[f.key := |s.flights|]
    ensures FlightsOk(c, s')
  {
    forall i | 0 <= i < |s'.flights| ensures FlightOk(c.policy, s', s'.flights[i]) {
      if i < |s.flights| { assert FlightOk(c.policy, s, s.flights[i]); }
    }
    forall i | 0 <= i < |s'.flights| && !s'.flights[i].phase.Done?
      ensures s'.flights[i].key in s'.table && s'.table[s'.flights[i].key] == i
    {
      if i < |s.flights| { assert s.table[s.flights[i].key] == i; }
    }
  }

  lemma PeekedAnswerOk(c: Config, s: Cache, k: Key, e: Entry, peekAt: Time)
    requires EntryOk(c.policy, s.produced, k, e) && Fresh(e, peekAt) && peekAt <= s.now
    ensures var a := PeekedAnswer(c.policy, e, peekAt, s.now);
      AnswerOk(c.policy, s.produced, k, a) && a.readAt <= s.now
  {}

  /** The lock holder goes on while it keeps the lock. */
  lemma HolderStepInv(c: Config, s: Cache, id: nat, caller: Caller)
    requires Inv(c, s) && id in s.callers && HoldsLock(s.callers[id]) && HoldsLock(caller)
    requires caller.req == s.callers[id].req && caller.peekAt == s.callers[id].peekAt
    requires CallerOk(c.policy, s, caller)
    requires caller.Creating? ==> NoFreshEntry(c, s, caller.req.key, caller.peekAt)
    ensures Inv(c, WithCaller(s, id, caller))
  {
    var s' := WithCaller(s, id, caller);
    forall i | i in s'.callers ensures CallerOk(c.policy, s', s'.callers[i]) {
      if i != id { assert CallerOk(c.policy, s, s.callers[i]); }
    }
    SameFlights(c, s, s');
    forall i | i in s'.callers && s'.callers[i].Creating?
      ensures NoFreshEntry(c, s', s'.callers[i].req.key, s'.callers[i].peekAt)
    {}
  }

  lemma PeekInv(c: Config, s: Cache, id: nat)
    requires Inv(c, s) && Enabled(c, s, PeekFresh(id))
    ensures Inv(c, Apply(c, s, PeekFresh(id)))
  {
    var Peeking(req, peekAt) := s.callers[id];
    assert CallerOk(c.policy, s, s.callers[id]);
    assert ShardOk(c, s.produced, HomeShard(c, s, req.key), Home(c, req.key));
    HolderStepInv(c, s, id, Apply(c, s, PeekFresh(id)).callers[id]);
  }

  lemma HandOutInv(c: Config, s: Cache, id: nat)
    requires Inv(c, s) && Enabled(c, s, HandOut(id))
    ensures Inv(c, Apply(c, s, HandOut(id)))
  {
    var s' := Apply(c, s, HandOut(id));
    var Found(req, peekAt, e) := s.callers[id];
    assert CallerOk(c.policy, s, s.callers[id]);
    PeekedAnswerOk(c, s, req.key, e, peekAt);
    AppendFlightInv(c, s, s', s'.flights[|s.flights|]);
    ReleaseCallersInv(c, s, s', id, s'.callers[id]);
  }

  lemma InFlightCreate(table: map<Key, nat>, k: Key, f: nat, egress: string)
    requires k !in table
    ensures |InFlight(table[k := f], egress)| == |InFlight(table, egress)| + if egress == k.egress then 1 else 0
  {
    assert InFlight(table[k := f], egress) == InFlight(table, egress) + if egress == k.egress then {k} else {};
  }

  lemma InFlightFinish(table: map<Key, nat>, k: Key, egress: string)
    requires k in table
    ensures |InFlight(table - {k}, egress)| == |InFlight(table, egress)| - if egress == k.egress then 1 else 0
  {
    assert InFlight(table - {k}, egress) == InFlight(table, egress) - if egress == k.egress then {k} else {};
    assert egress == k.egress ==> k in InFlight(table, egress);
  }

  lemma PendingAfterCreate(c: Config, s: Cache, s': Cache, k: Key, f: nat)
    requires PendingOk(c, s) && k !in s.table && Pending(s, k.egress) < c.policy.maxPending
    requires s'.table == s.table[k := f] && s'.pending == s.pending[k.egress := Pending(s, k.egress) + 1]
    ensures PendingOk(c, s')
  {
    forall e ensures Pending(s', e) == |InFlight(s'.table, e)| <= c.policy.maxPending {
      InFlightCreate(s.table, k, f, e);
    }
  }

  lemma RefuseInv(c: Config, s: Cache, id: nat)
    requires Inv(c, s) && Enabled(c, s, Create(id)) && Pending(s, s.callers[id].req.key.egress) >= c.policy.maxPending
    ensures Inv(c, Apply(c, s, Create(id)))
  {
    var s' := Apply(c, s, Create(id));
    assert CallerOk(c.policy, s, s.callers[id]);
    ReleaseCallersInv(c, s, s', id, s'.callers[id]);
    SameFlights(c, s, s');
  }

  lemma LaunchInv(c: Config, s: Cache, id: nat)
    requires Inv(c, s) && Enabled(c, s, Create(id)) && Pending(s, s.callers[id].req.key.egress) < c.policy.maxPending
    ensures Inv(c, Apply(c, s, Create(id)))
  {
    var s' := Apply(c, s, Create(id));
    assert CallerOk(c.policy, s, s.callers[id]);
    AppendFlightInv(c, s, s', s'.flights[|s.flights|]);
    PendingAfterCreate(c, s, s', s.callers[id].req.key, |s.flights|);
    ReleaseCallersInv(c, s, s', id, s'.callers[id]);
  }

  lemma CreateInv(c: Config, s: Cache, id: nat)
    requires Inv(c, s) && Enabled(c, s, Create(id))
    ensures Inv(c, Apply(c, s, Create(id)))
  {
    if Pending(s, s.callers[id].req.key.egress) >= c.policy.maxPending {
      RefuseInv(c, s, id);
    } else {
      LaunchInv(c, s, id);
    }
  }

  lemma CollectInv(c: Config, s: Cache, id: nat)
    requires Inv(c, s) && Enabled(c, s, Collect(id))
    ensures Inv(c, Apply(c, s, Collect(id)))
  {
    var Holding(req, f) := s.callers[id];
    assert CallerOk(c.policy, s, s.callers[id]);
    assert FlightOk(c.policy, s, s.flights[f]);
    CallerStepInv(c, s, id, Answered(req.key, Collected(s, req, s.flights[f])));
  }

  // ---- one flight's progress ----

  ghost predicate PhaseStep(c: Config, s: Cache, s': Cache, f: nat, phase: Phase) {
    && f < |s.flights| && !s.flights[f].phase.Done? && !phase.Done?
    && s' == s.(flights := s.flights[f := s.flights[f].(phase := phase)], produced := s'.produced)
    && s.produced <= s'.produced
    && PhaseOk(c.policy, s', s.flights[f].(phase := phase))
  }

  lemma PhaseStepFlights(c: Config, s: Cache, s': Cache, f: nat, phase: Phase)
    requires FlightsOk(c, s) && PhaseStep(c, s, s', f, phase)
    ensures FlightsOk(c, s')
  {
    forall i | 0 <= i < |s'.flights| ensures FlightOk(c.policy, s', s'.flights[i]) {
      assert FlightOk(c.policy, s, s.flights[i]);
    }
  }

  lemma PhaseStepCallers(c: Config, s: Cache, s': Cache, f: nat, phase: Phase)
    requires CallersOk(c, s) && PhaseStep(c, s, s', f, phase)
    ensures CallersOk(c, s')
  {
    forall i | i in s'.callers ensures CallerOk(c.policy, s', s'.callers[i]) {
      assert CallerOk(c.policy, s, s.callers[i]);
    }
  }

  /** A larger history of produced answers and a later phase of one flight leave everything else in order. */
  lemma PhaseStepInv(c: Config, s: Cache, s': Cache, f: nat, phase: Phase)
    requires Inv(c, s) && PhaseStep(c, s, s', f, phase)
    ensures Inv(c, s')
  {
    PhaseStepFlights(c, s, s', f, phase);
    PhaseStepCallers(c, s, s', f, phase);
    forall i | 0 <= i < |s'.shards| ensures ShardOk(c, s'.produced, s'.shards[i], i) {
      assert ShardOk(c, s.produced, s.shards[i], i);
    }
    forall id | id in s'.callers && s'.callers[id].Creating?
      ensures NoFreshEntry(c, s', s'.callers[id].req.key, s'.callers[id].peekAt)
    {
      assert NoFreshEntry(c, s, s.callers[id].req.key, s.callers[id].peekAt);
    }
  }

  lemma ResolverReturnsInv(c: Config, s: Cache, f: nat, raw: Result, failed: bool)
    requires Inv(c, s) && Enabled(c, s, ResolverReturns(f, raw, failed))
    ensures Inv(c, Apply(c, s, ResolverReturns(f, raw, failed)))
  {
    var s' := Apply(c, s, ResolverReturns(f, raw, failed));
    assert FlightOk(c.policy, s, s.flights[f]);
    PhaseStepInv(c, s, s', f, s'.flights[f].phase);
  }

  /** After sweeping, clearing and evicting, the shard holds the new entry and otherwise only lost entries. */
  lemma InsertOnlyLoses(s: Shard, k: Key, e: Entry, now: Time, gone: seq<Key>, victim: Option<Key>)
    requires Accounted(s) && CanInsert(s, k, e, now, gone, victim)
    ensures OnlyLoses(s, DnsModel.Insert(s, k, e, now, gone, victim), Some(k))
    ensures DnsModel.Insert(s, k, e, now, gone, victim).positiveCap == s.positiveCap
    ensures DnsModel.Insert(s, k, e, now, gone, victim).negativeCap == s.negativeCap
  {
    SweepAccounted(s, gone);
  }

  lemma InsertEntryInv(c: Config, s: Cache, f: nat, gone: seq<Key>, victim: Option<Key>)
    requires Inv(c, s) && Enabled(c, s, InsertEntry(f, gone, victim))
    ensures Inv(c, Apply(c, s, InsertEntry(f, gone, victim)))
  {
    var flight := s.flights[f];
    var Resolved(e, at) := flight.phase;
    var k, shard := flight.key, HomeShard(c, s, flight.key);
    assert FlightOk(c.policy, s, flight);
    assert ShardOk(c, s.produced, shard, Home(c, k));
    InsertAccounted(shard, k, e, at, gone, victim);
    InsertOnlyLoses(shard, k, e, at, gone, victim);
    var shard' := DnsModel.Insert(shard, k, e, at, gone, victim);
    ShardStepInv(c, s, k, shard', Some(k));
    var t := WithShard(c, s, k, shard');
    PhaseStepInv(c, t, WithFlight(t, f, Stored(e, at)), f, Stored(e, at));
  }

  lemma PendingAfterFinish(c: Config, s: Cache, s': Cache, k: Key)
    requires PendingOk(c, s) && k in s.table && s'.table == s.table - {k}
    requires s'.pending == var left := Pending(s, k.egress) - 1;
      if left <= 0 then s.pending - {k.egress} else s.pending[k.egress := left]
    ensures PendingOk(c, s')
  {
    forall e ensures Pending(s', e) == |InFlight(s'.table, e)| <= c.policy.maxPending {
      InFlightFinish(s.table, k, e);
    }
  }

  lemma FinishFlights(c: Config, s: Cache, f: nat)
    requires FlightsOk(c, s) && Enabled(c, s, Finish(f))
    ensures FlightsOk(c, Apply(c, s, Finish(f)))
  {
    var s' := Apply(c, s, Finish(f));
    assert FlightOk(c.policy, s, s.flights[f]);
    forall i | 0 <= i < |s'.flights| ensures FlightOk(c.policy, s', s'.flights[i]) {
      assert FlightOk(c.policy, s, s.flights[i]);
    }
  }

  lemma FinishInv(c: Config, s: Cache, f: nat)
    requires Inv(c, s) && Enabled(c, s, Finish(f))
    ensures Inv(c, Apply(c, s, Finish(f)))
  {
    var s', k := Apply(c, s, Finish(f)), s.flights[f].key;
    assert FlightOk(c.policy, s, s.flights[f]);
    PendingAfterFinish(c, s, s', k);
    FinishFlights(c, s, f);
    forall i | i in s'.callers ensures CallerOk(c.policy, s', s'.callers[i]) {
      assert CallerOk(c.policy, s, s.callers[i]);
    }
  }

  /** Every step of every thread preserves the invariant. */
  lemma StepInv(c: Config, s: Cache, step: Step)
    requires Inv(c, s) && Enabled(c, s, step)
    ensures Inv(c, Apply(c, s, step))
  {
    match step
    case Tick(to) => TickInv(c, s, to);
    case Ask(id, key) => CallerStepInv(c, s, id, Asked(key, s.now));
    case TakeEntry(id) => TakeInv(c, s, id);
    case LockFlights(id) => LockFlightsInv(c, s, id);
    case PeekFresh(id) => PeekInv(c, s, id);
    case HandOut(id) => HandOutInv(c, s, id);
    case Create(id) => CreateInv(c, s, id);
    case Collect(id) => CollectInv(c, s, id);
    case Cancel(id) =>
      assert CallerOk(c.policy, s, s.callers[id]);
      CallerStepInv(c, s, id, Answered(s.callers[id].req.key, Answer(NO_RESULT, Cancelled, s.callers[id].req.readAt)));
    case ResolverReturns(f, raw, failed) => ResolverReturnsInv(c, s, f, raw, failed);
    case InsertEntry(f, gone, victim) => InsertEntryInv(c, s, f, gone, victim);
    case Finish(f) => FinishInv(c, s, f);
    case Invalidate(key) => InvalidateInv(c, s, key);
  }
}
