/** Safety of whole runs of the DNS cache. */
module DnsRuns {
  import opened Options
  import opened DnsModel
  import opened DnsProtocol
  import opened DnsInvariants

  datatype Run = Run(states: seq<Cache>, steps: seq<Step>)

  ghost predicate Linked(c: Config, r: Run, i: nat)
    requires |r.states| == |r.steps| + 1 && i < |r.steps|
  {
    Enabled(c, r.states[i], r.steps[i]) && r.states[i + 1] == Apply(c, r.states[i], r.steps[i])
  }

  ghost predicate ValidRun(c: Config, r: Run) {
    && ValidPolicy(c.policy)
    && |r.states| == |r.steps| + 1
    && r.states[0] == Init(c)
    && (forall i :: 0 <= i < |r.steps| ==> Linked(c, r, i))
  }

  /** Every state of every run satisfies the invariant. */
  lemma {:induction false} RunInv(c: Config, r: Run, i: nat)
    requires ValidRun(c, r) && i < |r.states|
    ensures Inv(c, r.states[i])
  {
    if i == 0 {
      InitInv(c);
    } else {
      RunInv(c, r, i - 1);
      assert Linked(c, r, i - 1);
      StepInv(c, r.states[i - 1], r.steps[i - 1]);
    }
  }

  lemma {:induction false} ClockMonotone(c: Config, r: Run, i: nat, j: nat)
    requires ValidRun(c, r) && i <= j < |r.states|
    ensures r.states[i].now <= r.states[j].now
    decreases j
  {
    if i < j {
      ClockMonotone(c, r, i, j - 1);
      assert Linked(c, r, j - 1);
    }
  }

  // ---- single flight ----

  /** Two resolver runs for one key never overlap: unfinished flights have distinct keys. */
  lemma RunsNeverOverlap(c: Config, r: Run, i: nat, f: nat, g: nat)
    requires ValidRun(c, r) && i < |r.states|
    requires f < g < |r.states[i].flights|
    requires !r.states[i].flights[f].phase.Done? && !r.states[i].flights[g].phase.Done?
    ensures r.states[i].flights[f].key != r.states[i].flights[g].key
  {
    RunInv(c, r, i);
  }

  /** `step` launches a resolver run for `k`. */
  predicate Launches(c: Config, s: Cache, step: Step, k: Key) {
    && step.Create? && step.id in s.callers && s.callers[step.id].Creating?
    && s.callers[step.id].req.key == k
    && Pending(s, k.egress) < c.policy.maxPending
  }

  function Rank(p: Phase): nat {
    match p
    case Running => 0
    case Resolved(_, _) => 1
    case Stored(_, _) => 2
    case Done(_) => 3
  }

  /** A flight changes nothing but its phase, and that one phase at a time. */
  predicate Advances(f: Flight, f': Flight) {
    && f' == f.(phase := f'.phase)
    && (f'.phase == f.phase || Rank(f'.phase) == Rank(f.phase) + 1)
    && (f.phase.Resolved? && f'.phase != f.phase ==> f'.phase == Stored(f.phase.entry, f.phase.at))
  }

  lemma StepAdvances(c: Config, s: Cache, s': Cache, step: Step, f: nat)
    requires Enabled(c, s, step) && s' == Apply(c, s, step) && f < |s.flights|
    ensures f < |s'.flights| && Advances(s.flights[f], s'.flights[f])
    ensures s.flights[f].phase.Resolved? && s'.flights[f].phase.Stored? ==> step.InsertEntry? && step.flight == f
    ensures s.flights[f].phase.Stored? && s'.flights[f].phase.Done? ==> step == Finish(f)
  {}

  /** Each phase is entered only by the flight's own step. */
  lemma FlightProgress(c: Config, r: Run, i: nat, f: nat)
    requires ValidRun(c, r) && i < |r.steps| && f < |r.states[i].flights|
    ensures f < |r.states[i + 1].flights|
    ensures Advances(r.states[i].flights[f], r.states[i + 1].flights[f])
    ensures r.states[i].flights[f].phase.Resolved? && r.states[i + 1].flights[f].phase.Stored? ==>
      r.steps[i].InsertEntry? && r.steps[i].flight == f
    ensures r.states[i].flights[f].phase.Stored? && r.states[i + 1].flights[f].phase.Done? ==> r.steps[i] == Finish(f)
  {
    assert Linked(c, r, i);
    StepAdvances(c, r.states[i], r.states[i + 1], r.steps[i], f);
  }

  lemma {:induction false} FlightSurvives(c: Config, r: Run, f: nat, a: nat, b: nat)
    requires ValidRun(c, r) && a <= b < |r.states| && f < |r.states[a].flights|
    ensures f < |r.states[b].flights| && r.states[b].flights[f].key == r.states[a].flights[f].key
    ensures Rank(r.states[a].flights[f].phase) <= Rank(r.states[b].flights[f].phase)
    decreases b
  {
    if a < b {
      FlightSurvives(c, r, f, a, b - 1);
      FlightProgress(c, r, b - 1, f);
    }
  }

  /** Between a state below rank `n` and one at or above it, some step takes the flight to rank `n`. */
  lemma {:induction false} FindAdvance(c: Config, r: Run, f: nat, a: nat, b: nat, n: nat) returns (t: nat)
    requires ValidRun(c, r) && a <= b < |r.states| && f < |r.states[a].flights| && f < |r.states[b].flights|
    requires Rank(r.states[a].flights[f].phase) < n <= Rank(r.states[b].flights[f].phase)
    ensures a <= t < b && f < |r.states[t].flights| && f < |r.states[t + 1].flights|
    ensures Rank(r.states[t].flights[f].phase) == n - 1 && Rank(r.states[t + 1].flights[f].phase) == n
    decreases b
  {
    FlightSurvives(c, r, f, a, b - 1);
    FlightProgress(c, r, b - 1, f);
    if Rank(r.states[b - 1].flights[f].phase) < n {
      t := b - 1;
    } else {
      t := FindAdvance(c, r, f, a, b - 1, n);
    }
  }

  lemma UnfinishedInTable(c: Config, r: Run, i: nat, f: nat)
    requires ValidRun(c, r) && i < |r.states| && f < |r.states[i].flights|
    requires !r.states[i].flights[f].phase.Done?
    ensures r.states[i].flights[f].key in r.states[i].table && r.states[i].table[r.states[i].flights[f].key] == f
  {
    RunInv(c, r, i);
  }

  // ---- one key's stored answer ----

  function Lookup(c: Config, s: Cache, k: Key): Option<Entry> {
    if Shaped(c, s) && k in HomeShard(c, s, k).entries then Some(HomeShard(c, s, k).entries[k]) else None
  }

  predicate StoresFor(s: Cache, step: Step, k: Key) {
    step.InsertEntry? && step.flight < |s.flights| &&
    s.flights[step.flight].key == k && s.flights[step.flight].phase.Resolved?
  }

  predicate EvictsKey(step: Step, k: Key) { step.InsertEntry? && step.victim == Some(k) }

  /** The step is a call for `k` looking at its shard. */
  predicate TakesKey(s: Cache, step: Step, k: Key) {
    step.TakeEntry? && step.id in s.callers && s.callers[step.id].Asked? && s.callers[step.id].key == k
  }

  /** `found'` is what is left of `found` after `step`: the same entry, or nothing because it is expired and either past
      its stale horizon or taken by a call for its key, or because it was evicted or invalidated. */
  predicate KeptOrGone(found: Option<Entry>, found': Option<Entry>, s: Cache, step: Step, k: Key) {
    found == found' || (found.Some? && found'.None? &&
      ((found.value.result.expiresAt <= s.now && (found.value.staleUntil <= s.now || TakesKey(s, step, k))) ||
       EvictsKey(step, k) || step == Invalidate(k)))
  }

  lemma InsertLeaves(shard: Shard, key: Key, e: Entry, at: Time, gone: seq<Key>, victim: Option<Key>, k: Key)
    requires Accounted(shard) && CanInsert(shard, key, e, at, gone, victim) && key != k && k in shard.entries
    ensures var shard' := DnsModel.Insert(shard, key, e, at, gone, victim);
      if k in shard'.entries then shard'.entries[k] == shard.entries[k]
      else Dead(shard.entries[k], at) || victim == Some(k)
  {
    SweepAccounted(shard, gone);
    if k in gone {
      var i :| 0 <= i < |gone| && gone[i] == k;
      assert Dead(shard.entries[gone[i]], at);
    }
  }

  lemma InsertEntryLeaves(c: Config, s: Cache, step: Step, k: Key)
    requires Inv(c, s) && Enabled(c, s, step) && step.InsertEntry? && !StoresFor(s, step, k) && Lookup(c, s, k).Some?
    ensures KeptOrGone(Lookup(c, s, k), Lookup(c, Apply(c, s, step), k), s, step, k)
  {
    var flight := s.flights[step.flight];
    assert FlightOk(c.policy, s, flight);
    if Home(c, flight.key) == Home(c, k) {
      assert ShardOk(c, s.produced, HomeShard(c, s, k), Home(c, k));
      InsertLeaves(HomeShard(c, s, k), flight.key, flight.phase.entry, flight.phase.at, step.gone, step.victim, k);
    }
  }

  lemma TakeLeaves(c: Config, s: Cache, step: Step, k: Key)
    requires Inv(c, s) && Enabled(c, s, step) && step.TakeEntry? && Lookup(c, s, k).Some?
    ensures KeptOrGone(Lookup(c, s, k), Lookup(c, Apply(c, s, step), k), s, step, k)
  {
    assert CallerOk(c.policy, s, s.callers[step.id]);
  }

  lemma SameShardsSameEntry(c: Config, s: Cache, s': Cache, k: Key)
    requires s.shards == s'.shards
    ensures Lookup(c, s, k) == Lookup(c, s', k)
  {}

  predicate TouchesShards(step: Step) { step.TakeEntry? || step.InsertEntry? || step.Invalidate? }

  lemma OthersKeepShards(c: Config, s: Cache, step: Step)
    requires Enabled(c, s, step) && !TouchesShards(step)
    ensures Apply(c, s, step).shards == s.shards
  {}

  /** An entry leaves its shard only by expiring, by eviction, by invalidation, or by being replaced. */
  lemma EntryLeaves(c: Config, s: Cache, step: Step, k: Key)
    requires Inv(c, s) && Enabled(c, s, step) && !StoresFor(s, step, k) && Lookup(c, s, k).Some?
    ensures KeptOrGone(Lookup(c, s, k), Lookup(c, Apply(c, s, step), k), s, step, k)
  {
    if step.TakeEntry? {
      TakeLeaves(c, s, step, k);
    } else if step.InsertEntry? {
      InsertEntryLeaves(c, s, step, k);
    } else if !step.Invalidate? {
      OthersKeepShards(c, s, step);
      SameShardsSameEntry(c, s, Apply(c, s, step), k);
    }
  }

  lemma EntryLeavesAt(c: Config, r: Run, i: nat, k: Key)
    requires ValidRun(c, r) && i < |r.steps| && Lookup(c, r.states[i], k).Some?
    requires !StoresFor(r.states[i], r.steps[i], k)
    ensures KeptOrGone(Lookup(c, r.states[i], k), Lookup(c, r.states[i + 1], k), r.states[i], r.steps[i], k)
  {
    RunInv(c, r, i);
    assert Linked(c, r, i);
    EntryLeaves(c, r.states[i], r.steps[i], k);
  }

  /** Why a stored answer may be gone: it expired, and its stale horizon passed or a call for its key took it; or it was
      evicted or invalidated on the way. */
  ghost predicate GoneBetween(r: Run, k: Key, e: Entry, a: nat, b: nat)
    requires b < |r.states| && |r.states| == |r.steps| + 1
  {
    || (e.result.expiresAt <= r.states[b].now && (e.staleUntil <= r.states[b].now || TakenBetween(r, k, a, b)))
    || exists q :: a <= q < b && (EvictsKey(r.steps[q], k) || r.steps[q] == Invalidate(k))
  }

  /** Why a stored answer may be resolved again: it expired, or it was evicted or invalidated on the way. */
  ghost predicate ExpiredOrRemoved(r: Run, k: Key, e: Entry, a: nat, b: nat)
    requires b < |r.states| && |r.states| == |r.steps| + 1
  {
    || e.result.expiresAt <= r.states[b].now
    || exists q :: a <= q < b && (EvictsKey(r.steps[q], k) || r.steps[q] == Invalidate(k))
  }

  ghost predicate TakenBetween(r: Run, k: Key, a: nat, b: nat)
    requires b < |r.states| && |r.states| == |r.steps| + 1
  {
    exists q :: a <= q < b && TakesKey(r.states[q], r.steps[q], k)
  }

  lemma {:induction false} EntryPersists(c: Config, r: Run, k: Key, e: Entry, a: nat, b: nat)
    requires ValidRun(c, r) && a <= b < |r.states|
    requires Lookup(c, r.states[a], k) == Some(e)
    requires forall t :: a <= t < b ==> !StoresFor(r.states[t], r.steps[t], k)
    ensures Lookup(c, r.states[b], k) == Some(e) || GoneBetween(r, k, e, a, b)
    decreases b
  {
    if a < b {
      EntryPersists(c, r, k, e, a, b - 1);
      ClockMonotone(c, r, b - 1, b);
      if Lookup(c, r.states[b - 1], k) == Some(e) {
        EntryLeavesAt(c, r, b - 1, k);
      }
    }
  }

  // ---- the table between two launches ----

  lemma TableGrowsByLaunch(c: Config, r: Run, i: nat, k: Key)
    requires ValidRun(c, r) && i < |r.steps| && k !in r.states[i].table && k in r.states[i + 1].table
    ensures Launches(c, r.states[i], r.steps[i], k)
  {
    assert Linked(c, r, i);
  }

  /** Once out of the table, a key stays out until a run is launched for it. */
  lemma {:induction false} StaysOutOfTable(c: Config, r: Run, k: Key, a: nat, b: nat)
    requires ValidRun(c, r) && a <= b < |r.states| && k !in r.states[a].table
    requires forall t :: a <= t < b ==> !Launches(c, r.states[t], r.steps[t], k)
    ensures k !in r.states[b].table
    decreases b
  {
    if a < b {
      StaysOutOfTable(c, r, k, a, b - 1);
      if k in r.states[b].table { TableGrowsByLaunch(c, r, b - 1, k); }
    }
  }

  lemma LaunchEffect(c: Config, r: Run, i: nat, k: Key)
    requires ValidRun(c, r) && i < |r.steps| && Launches(c, r.states[i], r.steps[i], k)
    ensures var f := |r.states[i].flights|;
      f < |r.states[i + 1].flights| && r.states[i + 1].flights[f].key == k && r.states[i + 1].flights[f].phase.Running?
    ensures k !in r.states[i].table
    ensures Lookup(c, r.states[i], k).Some? ==> Lookup(c, r.states[i], k).value.result.expiresAt <= r.states[i].now
  {
    RunInv(c, r, i);
    assert Linked(c, r, i);
    var s, id := r.states[i], r.steps[i].id;
    assert HoldsLock(s.callers[id]);
    assert NoFreshEntry(c, s, k, s.callers[id].peekAt);
  }

  lemma FinishLeavesTable(c: Config, r: Run, m: nat, f: nat)
    requires ValidRun(c, r) && m < |r.steps| && r.steps[m] == Finish(f) && f < |r.states[m].flights|
    ensures r.states[m].flights[f].key !in r.states[m + 1].table && r.states[m].flights[f].phase.Stored?
  {
    assert Linked(c, r, m);
  }

  /** No answer for `k` is stored between a run's own store and the next launch. */
  lemma NoOtherStore(c: Config, r: Run, k: Key, f: nat, p: nat, m: nat, j: nat, t: nat)
    requires ValidRun(c, r) && p < t < j < |r.states| && p < m < j && f < |r.states[p + 1].flights|
    requires r.states[p + 1].flights[f].key == k && r.states[p + 1].flights[f].phase.Stored?
    requires r.steps[m] == Finish(f)
    requires forall q :: m < q < j ==> !Launches(c, r.states[q], r.steps[q], k)
    ensures !StoresFor(r.states[t], r.steps[t], k)
  {
    FlightSurvives(c, r, f, p + 1, m);
    FlightSurvives(c, r, f, p + 1, t);
    FinishLeavesTable(c, r, m, f);
    if t <= m {
      FlightSurvives(c, r, f, t, m);
      UnfinishedInTable(c, r, t, f);
    } else {
      StaysOutOfTable(c, r, k, m + 1, t);
    }
    if StoresFor(r.states[t], r.steps[t], k) {
      UnfinishedInTable(c, r, t, r.steps[t].flight);
      assert false;
    }
  }

  lemma StoredIsFound(c: Config, r: Run, i: nat)
    requires ValidRun(c, r) && i < |r.steps| && r.steps[i].InsertEntry? && r.steps[i].flight < |r.states[i].flights|
    requires r.states[i].flights[r.steps[i].flight].phase.Resolved?
    ensures Lookup(c, r.states[i + 1], r.states[i].flights[r.steps[i].flight].key) ==
      Some(r.states[i].flights[r.steps[i].flight].phase.entry)
  {
    assert Linked(c, r, i);
  }

  /** Single flight over all interleavings: between two consecutive launches for a key the first run
      stores its answer and then finishes, and the second starts only after that stored answer expired,
      was evicted, or was invalidated. */
  lemma SecondRunWaits(c: Config, r: Run, k: Key, i: nat, j: nat) returns (p: nat, m: nat, e: Entry)
    requires ValidRun(c, r) && i < j < |r.steps|
    requires Launches(c, r.states[i], r.steps[i], k) && Launches(c, r.states[j], r.steps[j], k)
    requires forall t :: i < t < j ==> !Launches(c, r.states[t], r.steps[t], k)
    ensures i < p < m < j
    ensures r.steps[p].InsertEntry? && r.steps[p].flight == |r.states[i].flights|
    ensures r.steps[m] == Finish(|r.states[i].flights|)
    ensures Lookup(c, r.states[p + 1], k) == Some(e)
    ensures ExpiredOrRemoved(r, k, e, p + 1, j)
  {
    var f := |r.states[i].flights|;
    LaunchEffect(c, r, i, k);
    LaunchEffect(c, r, j, k);
    FlightSurvives(c, r, f, i + 1, j);
    if !r.states[j].flights[f].phase.Done? { UnfinishedInTable(c, r, j, f); }
    m := FindAdvance(c, r, f, i + 1, j, 3);
    p := FindAdvance(c, r, f, i + 1, m, 2);
    FlightProgress(c, r, m, f);
    FlightProgress(c, r, p, f);
    FlightSurvives(c, r, f, i + 1, p);
    e := r.states[p].flights[f].phase.entry;
    StoredIsFound(c, r, p);
    forall t | p + 1 <= t < j ensures !StoresFor(r.states[t], r.steps[t], k) {
      NoOtherStore(c, r, k, f, p, m, j, t);
    }
    EntryPersists(c, r, k, e, p + 1, j);
  }

  // ---- what callers are served ----

  /** Step `i` is a resolver run for `k` completing with `result`. */
  predicate Produces(c: Config, s: Cache, step: Step, k: Key, result: Result) {
    && ValidPolicy(c.policy) && step.ResolverReturns? && step.flight < |s.flights| && s.flights[step.flight].key == k
    && result == Normalize(c.policy, step.raw, step.failed, s.now).0 && result.rcode == Success
  }

  lemma ProducedGrows(c: Config, r: Run, i: nat, k: Key, result: Result)
    requires ValidRun(c, r) && i < |r.steps|
    requires (k, result) in r.states[i + 1].produced && (k, result) !in r.states[i].produced
    ensures Produces(c, r.states[i], r.steps[i], k, result)
  {
    assert Linked(c, r, i);
  }

  /** Every remembered answer came from a completed run for that very key. */
  lemma {:induction false} ProducedByRun(c: Config, r: Run, i: nat, k: Key, result: Result) returns (t: nat)
    requires ValidRun(c, r) && i < |r.states| && (k, result) in r.states[i].produced
    ensures t < i && Produces(c, r.states[t], r.steps[t], k, result)
    decreases i
  {
    if i > 0 && (k, result) in r.states[i - 1].produced {
      t := ProducedByRun(c, r, i - 1, k, result);
    } else {
      t := i - 1;
      ProducedGrows(c, r, t, k, result);
    }
  }

  /** The horizon never slides: an entry that carries a last-good answer through any chain of transient
      failures still has that answer's own expiry plus the window as its limit. */
  lemma HorizonNeverSlides(c: Config, r: Run, i: nat, k: Key) returns (t: nat)
    requires ValidRun(c, r) && i < |r.states| && Lookup(c, r.states[i], k).Some?
    requires |Lookup(c, r.states[i], k).value.stale.addrs| > 0
    ensures var e := Lookup(c, r.states[i], k).value;
      && t < i && Produces(c, r.states[t], r.steps[t], k, e.stale)
      && e.staleUntil == e.stale.expiresAt + c.policy.staleWindow
  {
    RunInv(c, r, i);
    assert ShardOk(c, r.states[i].produced, HomeShard(c, r.states[i], k), Home(c, k));
    t := ProducedByRun(c, r, i, k, Lookup(c, r.states[i], k).value.stale);
  }

  // ---- accounting ----

  ghost function TotalEntries(shards: seq<Shard>, positive: bool): nat {
    if shards == [] then 0
    else TotalEntries(shards[..|shards| - 1], positive) + |Members(shards[|shards| - 1], positive)|
  }

  lemma {:induction false} TotalWithinShares(c: Config, s: Cache, positive: bool, n: nat)
    requires Inv(c, s) && n <= |s.shards|
    ensures TotalEntries(s.shards[..n], positive) <=
      SumCapacities(if positive then c.policy.positiveCapacity else c.policy.negativeCapacity, ShardCount(c.policy), n)
    decreases n
  {
    if n > 0 {
      TotalWithinShares(c, s, positive, n - 1);
      assert ShardOk(c, s.produced, s.shards[n - 1], n - 1);
      assert s.shards[..n][..n - 1] == s.shards[..n - 1];
      assert |Members(s.shards[n - 1], positive)| <= Capacity(s.shards[n - 1], positive);
    }
  }

  /** In every reachable state each shard's counters are its real class sizes, and the whole cache holds
      at most the configured number of entries of each class. */
  lemma CapacityHolds(c: Config, r: Run, i: nat, positive: bool)
    requires ValidRun(c, r) && i < |r.states|
    ensures forall j :: 0 <= j < |r.states[i].shards| ==>
      var shard := r.states[i].shards[j];
      Count(shard, positive) == |Members(shard, positive)| <= Capacity(shard, positive)
    ensures TotalEntries(r.states[i].shards, positive) <=
      if positive then c.policy.positiveCapacity else c.policy.negativeCapacity
  {
    RunInv(c, r, i);
    var s := r.states[i];
    forall j | 0 <= j < |s.shards|
      ensures Count(s.shards[j], positive) == |Members(s.shards[j], positive)| <= Capacity(s.shards[j], positive)
    {
      assert ShardOk(c, s.produced, s.shards[j], j);
    }
    TotalWithinShares(c, s, positive, |s.shards|);
    assert s.shards[..|s.shards|] == s.shards;
    var capacity := if positive then c.policy.positiveCapacity else c.policy.negativeCapacity;
    CapacitiesSumToTotal(capacity, ShardCount(c.policy));
  }

  lemma EvictsWhenFull(shard: Shard, k: Key, e: Entry, at: Time, gone: seq<Key>, v: Key)
    requires Accounted(shard) && CanInsert(shard, k, e, at, gone, Some(v))
    ensures var shard', positive := DnsModel.Insert(shard, k, e, at, gone, Some(v)), e.result.rcode == Success;
      && v in shard.entries && (shard.entries[v].result.rcode == Success) == positive
      && |Members(shard', positive)| == if positive then shard'.positiveCap else shard'.negativeCap
  {
    var positive := e.result.rcode == Success;
    SweepAccounted(shard, gone);
    InsertAccounted(shard, k, e, at, gone, Some(v));
    assert Count(DnsModel.Insert(shard, k, e, at, gone, Some(v)), positive) ==
      |Members(DnsModel.Insert(shard, k, e, at, gone, Some(v)), positive)|;
  }

  /** An entry is evicted only to make room in its own class, and only when the class is full: the step that evicts it
      stores an entry of the class and leaves the shard's class at capacity. */
  lemma EvictedOnlyWhenFull(c: Config, r: Run, i: nat, v: Key)
    requires ValidRun(c, r) && i < |r.steps| && EvictsKey(r.steps[i], v)
    ensures Enabled(c, r.states[i], r.steps[i]) && Shaped(c, r.states[i + 1])
    ensures var flight := r.states[i].flights[r.steps[i].flight];
      var shard, shard' := HomeShard(c, r.states[i], flight.key), HomeShard(c, r.states[i + 1], flight.key);
      var positive := flight.phase.entry.result.rcode == Success;
      && v in shard.entries && (shard.entries[v].result.rcode == Success) == positive
      && |Members(shard', positive)| == if positive then shard'.positiveCap else shard'.negativeCap
  {
    RunInv(c, r, i);
    assert Linked(c, r, i);
    var flight := r.states[i].flights[r.steps[i].flight];
    var shard := HomeShard(c, r.states[i], flight.key);
    assert ShardOk(c, r.states[i].produced, shard, Home(c, flight.key));
    EvictsWhenFull(shard, flight.key, flight.phase.entry, flight.phase.at, r.steps[i].gone, v);
  }

  /** There are as many shards, up to sixteen, as can each hold an entry of either class. */
  lemma ShardsFit(p: Policy)
    requires ValidPolicy(p)
    ensures 1 <= ShardCount(p) <= 16 && ShardCount(p) <= p.positiveCapacity && ShardCount(p) <= p.negativeCapacity
    ensures ShardCount(p) in {16, p.positiveCapacity, p.negativeCapacity}
  {}

  /** A call is refused for the pending limit exactly when its own egress has that many unfinished
      flights; flights of other egresses play no part. */
  lemma RefusedOnlyByOwnEgress(c: Config, r: Run, i: nat)
    requires ValidRun(c, r) && i < |r.steps| && r.steps[i].Create?
    ensures r.steps[i].id in r.states[i].callers && r.states[i].callers[r.steps[i].id].Creating?
    ensures r.steps[i].id in r.states[i + 1].callers
    ensures var k := r.states[i].callers[r.steps[i].id].req.key;
      (r.states[i + 1].callers[r.steps[i].id].Answered? <==>
       |set q | q in r.states[i].table && q.egress == k.egress| == c.policy.maxPending)
  {
    RunInv(c, r, i);
    assert Linked(c, r, i);
    var k := r.states[i].callers[r.steps[i].id].req.key;
    assert InFlight(r.states[i].table, k.egress) == set q | q in r.states[i].table && q.egress == k.egress;
    assert Pending(r.states[i], k.egress) == |InFlight(r.states[i].table, k.egress)|;
  }

  /** In every reachable state an egress's pending counter is its number of unfinished flights, within
      the cap, and the counter is dropped exactly when there are none. */
  lemma PendingIsExact(c: Config, r: Run, i: nat, egress: string)
    requires ValidRun(c, r) && i < |r.states|
    ensures Pending(r.states[i], egress) == |InFlight(r.states[i].table, egress)| <= c.policy.maxPending
    ensures egress in r.states[i].pending <==> exists k :: k in r.states[i].table && k.egress == egress
  {
    RunInv(c, r, i);
    var mine := InFlight(r.states[i].table, egress);
    assert Pending(r.states[i], egress) == |mine|;
    if egress in r.states[i].pending {
      assert mine != {};
      var k :| k in mine;
    }
    if k :| k in r.states[i].table && k.egress == egress { assert k in mine; }
  }
}
