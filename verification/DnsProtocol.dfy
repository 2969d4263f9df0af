/** The DNS cache under concurrency: callers, background flights and invalidations interleave, one
    critical section or clock reading at a time. The resolver's outcome, the hash and every choice the
    runtime leaves open (what a sweep visits, which victim is evicted) are arbitrary. */
module DnsProtocol {
  import Ordering
  import opened Options
  import opened DnsModel

  datatype Config = Config(policy: Policy, hash: Key -> nat)

  const DEFAULT_SHARDS := 16

  function ShardCount(p: Policy): int {
    Ordering.Min(DEFAULT_SHARDS, Ordering.Min(p.positiveCapacity, p.negativeCapacity))
  }

  /** What a caller receives; `readAt` is the clock reading the answer was judged by. */
  datatype Outcome = Good | Failed | PendingLimit | Cancelled
  datatype Answer = Answer(result: Result, outcome: Outcome, readAt: Time)

  datatype Phase = Running | Resolved(entry: Entry, at: Time) | Stored(entry: Entry, at: Time) | Done(answer: Answer)

  /** `readAt` is the starting caller's clock reading. */
  datatype Flight = Flight(key: Key, stale: Result, staleUntil: Time, serveStale: bool, readAt: Time, phase: Phase)

  /** A call that has read the clock and looked at its shard; `background` asks for a stale-serving refresh. */
  datatype Request = Request(key: Key, readAt: Time, stale: Result, staleUntil: Time, background: bool)

  datatype Caller =
    | Asked(key: Key, readAt: Time)
    | Starting(req: Request)
    | Peeking(req: Request, peekAt: Time)     // holds the flight lock
    | Found(req: Request, peekAt: Time, entry: Entry)    // holds the flight lock, saw a fresh entry
    | Creating(req: Request, peekAt: Time)    // holds the flight lock
    | Holding(req: Request, flight: nat)
    | Answered(key: Key, answer: Answer)

  /** `flights` keeps every flight ever made, `table` the unfinished ones; `produced` remembers every
      successful answer a resolver run gave for a key. */
  datatype Cache = Cache(
    now: Time, shards: seq<Shard>, table: map<Key, nat>, pending: map<string, int>,
    lock: Option<nat>, flights: seq<Flight>, callers: map<nat, Caller>, produced: set<(Key, Result)>)

  datatype Step =
    | Tick(to: Time)
    | Ask(id: nat, key: Key)
    | TakeEntry(id: nat)
    | LockFlights(id: nat)
    | PeekFresh(id: nat)
    | HandOut(id: nat)
    | Create(id: nat)
    | Collect(id: nat)
    | Cancel(id: nat)
    | ResolverReturns(flight: nat, raw: Result, failed: bool)
    | InsertEntry(flight: nat, gone: seq<Key>, victim: Option<Key>)
    | Finish(flight: nat)
    | Invalidate(key: Key)

  predicate Shaped(c: Config, s: Cache) { ValidPolicy(c.policy) && |s.shards| == ShardCount(c.policy) }

  function Home(c: Config, k: Key): nat
    requires ValidPolicy(c.policy)
  {
    c.hash(k) % ShardCount(c.policy)
  }

  function HomeShard(c: Config, s: Cache, k: Key): Shard
    requires Shaped(c, s)
  {
    s.shards[Home(c, k)]
  }

  function WithShard(c: Config, s: Cache, k: Key, shard: Shard): Cache
    requires Shaped(c, s)
  {
    s.(shards := s.shards[Home(c, k) := shard])
  }

  function WithCaller(s: Cache, id: nat, caller: Caller): Cache { s.(callers := s.callers[id := caller]) }

  function WithFlight(s: Cache, f: nat, phase: Phase): Cache
    requires f < |s.flights|
  {
    s.(flights := s.flights[f := s.flights[f].(phase := phase)])
  }

  function Pending(s: Cache, egress: string): int { if egress in s.pending then s.pending[egress] else 0 }

  function Judge(e: Err): Outcome { if e == NoErr then Good else Failed }

  // ---- the cache at start ----

  function Init(c: Config): (s: Cache)
    requires ValidPolicy(c.policy)
  {
    var n := ShardCount(c.policy);
    Cache(0,
      seq(n, i => Shard(map[], 0, 0,
        DistributedCapacity(c.policy.positiveCapacity, n, i), DistributedCapacity(c.policy.negativeCapacity, n, i))),
      map[], map[], None, [], map[], {})
  }

  // ---- when a step can happen ----

  predicate Enabled(c: Config, s: Cache, step: Step) {
    Shaped(c, s) &&
    match step
    case Tick(to) => s.now <= to
    case Ask(id, _) => id !in s.callers
    case TakeEntry(id) => id in s.callers && s.callers[id].Asked?
    case LockFlights(id) => id in s.callers && s.callers[id].Starting? && s.lock == None
    case PeekFresh(id) => id in s.callers && s.callers[id].Peeking?
    case HandOut(id) => id in s.callers && s.callers[id].Found?
    case Create(id) => id in s.callers && s.callers[id].Creating?
    case Collect(id) => id in s.callers && s.callers[id].Holding? && s.callers[id].flight < |s.flights| &&
      (var f := s.flights[s.callers[id].flight];
       f.phase.Done? || s.callers[id].req.background || (f.serveStale && |f.stale.addrs| > 0))
    case Cancel(id) => id in s.callers && s.callers[id].Holding? && !s.callers[id].req.background
    case ResolverReturns(f, _, _) => f < |s.flights| && s.flights[f].phase.Running?
    case InsertEntry(f, gone, victim) => f < |s.flights| && s.flights[f].phase.Resolved? &&
      (var k, p := s.flights[f].key, s.flights[f].phase;
       CanInsert(HomeShard(c, s, k), k, p.entry, p.at, gone, victim))
    case Finish(f) => f < |s.flights| && s.flights[f].phase.Stored? && s.lock == None
    case Invalidate(_) => true
  }

  // ---- what a step does ----

  /** Resolve after takeEntry: answer from a fresh entry, or carry a stale candidate to the flight table. */
  function AfterTake(p: Policy, k: Key, now: Time, e: Entry, found: bool): Caller {
    if found && e.result.rcode in {Success, NxDomain, NoData} then Answered(k, Answer(e.result, Good, now))
    else if found && e.result.rcode == Transient && CanServeStale(p, e, now) then
      Answered(k, Answer(e.stale, Good, now))
    else if found && e.result.rcode == Transient then Answered(k, Answer(e.result, Judge(e.err), now))
    else if e.result.rcode == Success && now < e.staleUntil then
      Starting(Request(k, now, e.result, e.staleUntil, false))
    else if e.result.rcode == Transient && CanServeStale(p, e, now) then
      Starting(Request(k, now, e.stale, e.staleUntil, true))
    else Starting(Request(k, now, NO_RESULT, 0, false))
  }

  /** The answer of the already-finished flight handed out when the re-check under the lock found a fresh
      entry at `peekAt`; a transient one is judged by a second reading, `now`. */
  function PeekedAnswer(p: Policy, e: Entry, peekAt: Time, now: Time): Answer {
    if e.result.rcode == Transient && CanServeStale(p, e, now) then Answer(e.stale, Good, now)
    else if e.result.rcode == Transient then Answer(e.result, Judge(e.err), peekAt)
    else Answer(e.result, Good, peekAt)
  }

  function FlightAnswer(p: Policy, e: Entry, at: Time): Answer {
    if e.result.rcode == Transient && CanServeStale(p, e, at) then Answer(e.stale, Good, at)
    else Answer(e.result, Judge(e.err), at)
  }

  function Collected(s: Cache, req: Request, f: Flight): Answer {
    if f.phase.Done? then f.phase.answer
    else if req.background then Answer(req.stale, Good, req.readAt)
    else Answer(f.stale, Good, f.readAt)
  }

  function Apply(c: Config, s: Cache, step: Step): Cache
    requires Enabled(c, s, step)
  {
    match step
    case Tick(to) => s.(now := to)
    case Ask(id, key) => WithCaller(s, id, Asked(key, s.now))
    case TakeEntry(id) =>
      var Asked(k, readAt) := s.callers[id];
      var (e, found, shard) := Take(c.policy, HomeShard(c, s, k), k, readAt);
      WithCaller(WithShard(c, s, k, shard), id, AfterTake(c.policy, k, readAt, e, found))
    case LockFlights(id) =>
      var req := s.callers[id].req;
      if req.key in s.table then WithCaller(s, id, Holding(req, s.table[req.key]))
      else WithCaller(s, id, Peeking(req, s.now)).(lock := Some(id))
    case PeekFresh(id) =>
      var Peeking(req, peekAt) := s.callers[id];
      var shard := HomeShard(c, s, req.key);
      if req.key in shard.entries && Fresh(shard.entries[req.key], peekAt) then
        WithCaller(s, id, Found(req, peekAt, shard.entries[req.key]))
      else WithCaller(s, id, Creating(req, peekAt))
    case HandOut(id) =>
      var Found(req, peekAt, e) := s.callers[id];
      var done := Done(PeekedAnswer(c.policy, e, peekAt, s.now));
      WithCaller(s, id, Holding(req, |s.flights|))
        .(flights := s.flights + [Flight(req.key, NO_RESULT, 0, false, req.readAt, done)], lock := None)
    case Create(id) =>
      var req := s.callers[id].req;
      if Pending(s, req.key.egress) >= c.policy.maxPending then
        WithCaller(s, id, Answered(req.key, Answer(NO_RESULT, PendingLimit, req.readAt))).(lock := None)
      else
        WithCaller(s, id, Holding(req, |s.flights|))
          .(flights := s.flights + [Flight(req.key, req.stale, req.staleUntil, req.background, req.readAt, Running)],
            table := s.table[req.key := |s.flights|],
            pending := s.pending[req.key.egress := Pending(s, req.key.egress) + 1],
            lock := None)
    case Collect(id) =>
      var Holding(req, f) := s.callers[id];
      WithCaller(s, id, Answered(req.key, Collected(s, req, s.flights[f])))
    case Cancel(id) =>
      var req := s.callers[id].req;
      WithCaller(s, id, Answered(req.key, Answer(NO_RESULT, Cancelled, req.readAt)))
    case ResolverReturns(f, raw, failed) =>
      var flight := s.flights[f];
      var (result, err) := Normalize(c.policy, raw, failed, s.now);
      var e := BuildEntry(c.policy, result, err, flight.stale, flight.staleUntil, s.now);
      WithFlight(s, f, Resolved(e, s.now))
        .(produced := s.produced + if result.rcode == Success then {(flight.key, result)} else {})
    case InsertEntry(f, gone, victim) =>
      var flight := s.flights[f];
      var Resolved(e, at) := flight.phase;
      var shard := DnsModel.Insert(HomeShard(c, s, flight.key), flight.key, e, at, gone, victim);
      WithFlight(WithShard(c, s, flight.key, shard), f, Stored(e, at))
    case Finish(f) =>
      var flight := s.flights[f];
      var left := Pending(s, flight.key.egress) - 1;
      WithFlight(s, f, Done(FlightAnswer(c.policy, flight.phase.entry, flight.phase.at)))
        .(table := s.table - {flight.key},
          pending := if left <= 0 then s.pending - {flight.key.egress} else s.pending[flight.key.egress := left])
    case Invalidate(key) => WithShard(c, s, key, Drop(HomeShard(c, s, key), key))
  }
}
