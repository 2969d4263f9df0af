/** What an invalidation achieves: exactly when an answer it dropped can still be served. */
module DnsInvalidation {
  import opened Options
  import opened DnsModel
  import opened DnsProtocol
  import opened DnsInvariants
  import opened DnsRuns
  import opened DnsReadings

  // ---- who can still bring an answer to a caller ----

  predicate EntryCarries(c: Config, e: Entry, res: Result) {
    e.result == res || (c.policy.staleTransient && e.stale == res)
  }

  predicate StillServable(c: Config, now: Time, staleUntil: Time) { c.policy.staleTransient && now < staleUntil }

  predicate RequestCarries(c: Config, s: Cache, req: Request, res: Result) {
    req.stale == res && (req.background || StillServable(c, s.now, req.staleUntil))
  }

  /** An unfinished flight can bring `res` to a caller: it serves it while it runs, it will fall back on it if its
      resolver fails in time, or its entry holds it. */
  predicate FlightCarries(c: Config, s: Cache, f: Flight, res: Result) {
    match f.phase
    case Running => f.stale == res && (f.serveStale || StillServable(c, s.now, f.staleUntil))
    case Resolved(e, _) => EntryCarries(c, e, res) || (f.serveStale && f.stale == res)
    case Stored(e, _) => EntryCarries(c, e, res) || (f.serveStale && f.stale == res)
    case Done(_) => false
  }

  /** A call that holds the flight lock will start a flight with what it carries, unless its egress is at its cap. */
  predicate LauncherCarries(c: Config, s: Cache, req: Request, k: Key, res: Result) {
    req.key == k && RequestCarries(c, s, req, res) && Pending(s, k.egress) < c.policy.maxPending
  }

  /** A waiting call for `k` can still be given `res` for what it carries itself. */
  predicate CallerCarries(c: Config, s: Cache, caller: Caller, k: Key, res: Result) {
    match caller
    case Asked(_, _) => false
    case Starting(req) => req.key == k && RequestCarries(c, s, req, res)
    case Peeking(req, _) => LauncherCarries(c, s, req, k, res)
    case Found(req, _, e) => req.key == k &&
      (e.result == res || (e.stale == res && StillServable(c, s.now, e.staleUntil)))
    case Creating(req, _) => LauncherCarries(c, s, req, k, res)
    case Holding(req, f) => req.key == k && f < |s.flights| &&
      if s.flights[f].phase.Done? then Gives(s.flights[f].phase.answer, res) else req.background && req.stale == res
    case Answered(_, _) => false
  }

  predicate Gives(a: Answer, res: Result) { a.outcome == Good && a.result == res }

  ghost predicate ShardClean(c: Config, s: Cache, k: Key, res: Result) {
    Shaped(c, s) && (k in HomeShard(c, s, k).entries ==> !EntryCarries(c, HomeShard(c, s, k).entries[k], res))
  }

  ghost predicate CallersClean(c: Config, s: Cache, k: Key, res: Result) {
    forall id :: id in s.callers ==> !CallerCarries(c, s, s.callers[id], k, res)
  }

  ghost predicate FlightsClean(c: Config, s: Cache, k: Key, res: Result) {
    forall f :: 0 <= f < |s.flights| && s.flights[f].key == k ==> !FlightCarries(c, s, s.flights[f], res)
  }

  /** Nothing in the cache can bring `res` to a caller of `k`. */
  ghost predicate Clean(c: Config, s: Cache, k: Key, res: Result) {
    ShardClean(c, s, k, res) && CallersClean(c, s, k, res) && FlightsClean(c, s, k, res)
  }

  predicate Served(s: Cache, id: nat, k: Key, res: Result) {
    id in s.callers && s.callers[id].Answered? && s.callers[id].key == k && Gives(s.callers[id].answer, res)
  }

  // ---- a clean cache stays clean until the answer is produced again ----

  lemma InsertKeepsClean(c: Config, s: Cache, step: Step, k: Key, res: Result)
    requires Inv(c, s) && Enabled(c, s, step) && step.InsertEntry? && Clean(c, s, k, res)
    ensures ShardClean(c, Apply(c, s, step), k, res)
  {
    var flight := s.flights[step.flight];
    var shard := HomeShard(c, s, flight.key);
    assert ShardOk(c, s.produced, shard, Home(c, flight.key));
    InsertAccounted(shard, flight.key, flight.phase.entry, flight.phase.at, step.gone, step.victim);
    InsertOnlyLoses(shard, flight.key, flight.phase.entry, flight.phase.at, step.gone, step.victim);
  }

  lemma ShardStaysClean(c: Config, s: Cache, step: Step, k: Key, res: Result)
    requires Inv(c, s) && Enabled(c, s, step) && Clean(c, s, k, res)
    ensures ShardClean(c, Apply(c, s, step), k, res)
  {
    if step.InsertEntry? {
      InsertKeepsClean(c, s, step, k, res);
    } else if !TouchesShards(step) {
      OthersKeepShards(c, s, step);
    }
  }

  lemma ReturnKeepsClean(c: Config, s: Cache, step: Step, k: Key, res: Result)
    requires Inv(c, s) && Enabled(c, s, step) && step.ResolverReturns? && Clean(c, s, k, res) && |res.addrs| > 0
    requires !Produces(c, s, step, k, res)
    ensures var s' := Apply(c, s, step);
      s.flights[step.flight].key == k ==> !FlightCarries(c, s', s'.flights[step.flight], res)
  {
    var flight := s.flights[step.flight];
    var (result, err) := Normalize(c.policy, step.raw, step.failed, s.now);
    assert flight.key == k ==> !FlightCarries(c, s, flight, res);
    assert flight.key == k ==> result != res;
  }

  lemma TimeGoesOn(c: Config, s: Cache, step: Step)
    requires Enabled(c, s, step)
    ensures s.now <= Apply(c, s, step).now
  {}

  /** Only its resolver's return can make a flight carry what it did not. */
  lemma AdvancesClean(c: Config, s: Cache, s': Cache, f: Flight, f': Flight, res: Result)
    requires Advances(f, f') && s.now <= s'.now && !(f.phase.Running? && f'.phase.Resolved?)
    requires !FlightCarries(c, s, f, res)
    ensures !FlightCarries(c, s', f', res)
  {}

  lemma OldFlightStaysClean(c: Config, s: Cache, s': Cache, step: Step, k: Key, res: Result, f: nat)
    requires Inv(c, s) && Enabled(c, s, step) && s' == Apply(c, s, step) && Clean(c, s, k, res) && |res.addrs| > 0
    requires !Produces(c, s, step, k, res) && f < |s.flights| && s.flights[f].key == k
    ensures f < |s'.flights| && !FlightCarries(c, s', s'.flights[f], res)
  {
    TimeGoesOn(c, s, step);
    StepAdvances(c, s, s', step, f);
    assert !FlightCarries(c, s, s.flights[f], res);
    if s.flights[f].phase.Running? && s'.flights[f].phase.Resolved? {
      KeepsCompletion(c, s, s', step, f);
      ReturnKeepsClean(c, s, step, k, res);
    } else {
      AdvancesClean(c, s, s', s.flights[f], s'.flights[f], res);
    }
  }

  lemma NewFlightIsClean(c: Config, s: Cache, s': Cache, step: Step, k: Key, res: Result)
    requires Inv(c, s) && Enabled(c, s, step) && s' == Apply(c, s, step) && CallersClean(c, s, k, res)
    requires |s.flights| < |s'.flights| && s'.flights[|s.flights|].key == k
    ensures !FlightCarries(c, s', s'.flights[|s.flights|], res)
  {
    NewFlight(c, s, s', step);
    assert !CallerCarries(c, s, s.callers[step.id], k, res);
  }

  lemma FlightsStayClean(c: Config, s: Cache, s': Cache, step: Step, k: Key, res: Result)
    requires Inv(c, s) && Enabled(c, s, step) && s' == Apply(c, s, step) && Clean(c, s, k, res) && |res.addrs| > 0
    requires !Produces(c, s, step, k, res)
    ensures FlightsClean(c, s', k, res)
  {
    NewFlight(c, s, s', step);
    forall f | 0 <= f < |s'.flights| && s'.flights[f].key == k ensures !FlightCarries(c, s', s'.flights[f], res) {
      if f < |s.flights| {
        StepAdvances(c, s, s', step, f);
        OldFlightStaysClean(c, s, s', step, k, res, f);
      } else {
        NewFlightIsClean(c, s, s', step, k, res);
      }
    }
  }

  /** A caller that neither carries `res` nor was just given it. */
  predicate Unserved(c: Config, s: Cache, id: nat, k: Key, res: Result) {
    id in s.callers ==> !CallerCarries(c, s, s.callers[id], k, res) && !Served(s, id, k, res)
  }

  lemma TakeStaysClean(c: Config, s: Cache, id: nat, k: Key, res: Result)
    requires Enabled(c, s, TakeEntry(id)) && ShardClean(c, s, k, res) && |res.addrs| > 0
    ensures Unserved(c, Apply(c, s, TakeEntry(id)), id, k, res)
  {}

  lemma LockStaysClean(c: Config, s: Cache, id: nat, k: Key, res: Result)
    requires Inv(c, s) && Enabled(c, s, LockFlights(id)) && CallersClean(c, s, k, res)
    ensures Unserved(c, Apply(c, s, LockFlights(id)), id, k, res)
  {
    assert !CallerCarries(c, s, s.callers[id], k, res);
  }

  lemma PeekStaysClean(c: Config, s: Cache, id: nat, k: Key, res: Result)
    requires Inv(c, s) && Enabled(c, s, PeekFresh(id)) && CallersClean(c, s, k, res) && ShardClean(c, s, k, res)
    ensures Unserved(c, Apply(c, s, PeekFresh(id)), id, k, res)
  {
    assert !CallerCarries(c, s, s.callers[id], k, res);
  }

  lemma HandOutStaysClean(c: Config, s: Cache, id: nat, k: Key, res: Result)
    requires Inv(c, s) && Enabled(c, s, HandOut(id)) && CallersClean(c, s, k, res)
    ensures Unserved(c, Apply(c, s, HandOut(id)), id, k, res)
  {
    assert !CallerCarries(c, s, s.callers[id], k, res);
  }

  lemma CreateStaysClean(c: Config, s: Cache, id: nat, k: Key, res: Result)
    requires Inv(c, s) && Enabled(c, s, Create(id)) && CallersClean(c, s, k, res)
    ensures Unserved(c, Apply(c, s, Create(id)), id, k, res)
  {
    assert !CallerCarries(c, s, s.callers[id], k, res);
  }

  lemma CollectStaysClean(c: Config, s: Cache, id: nat, k: Key, res: Result)
    requires Inv(c, s) && Enabled(c, s, Collect(id)) && CallersClean(c, s, k, res) && FlightsClean(c, s, k, res)
    ensures Unserved(c, Apply(c, s, Collect(id)), id, k, res)
  {
    assert !CallerCarries(c, s, s.callers[id], k, res);
    assert CallerOk(c.policy, s, s.callers[id]);
    var f := s.callers[id].flight;
    assert s.flights[f].key == k ==> !FlightCarries(c, s, s.flights[f], res);
  }

  lemma OwnStepStaysClean(c: Config, s: Cache, step: Step, k: Key, res: Result, id: nat)
    requires Inv(c, s) && Enabled(c, s, step) && Clean(c, s, k, res) && |res.addrs| > 0 && StepOf(step, id)
    ensures Unserved(c, Apply(c, s, step), id, k, res)
  {
    match step
    case Ask(_, _) =>
    case TakeEntry(_) => TakeStaysClean(c, s, id, k, res);
    case LockFlights(_) => LockStaysClean(c, s, id, k, res);
    case PeekFresh(_) => PeekStaysClean(c, s, id, k, res);
    case HandOut(_) => HandOutStaysClean(c, s, id, k, res);
    case Create(_) => CreateStaysClean(c, s, id, k, res);
    case Collect(_) => CollectStaysClean(c, s, id, k, res);
    case Cancel(_) =>
  }

  /** A flight that carries nothing finishes without `res`. */
  lemma FinishesClean(c: Config, s: Cache, s': Cache, step: Step, k: Key, res: Result, f: nat)
    requires Enabled(c, s, step) && s' == Apply(c, s, step) && FlightsClean(c, s, k, res)
    requires f < |s.flights| && s.flights[f].key == k && !s.flights[f].phase.Done?
    ensures f < |s'.flights| && (s'.flights[f].phase.Done? ==> s'.flights[f].phase.answer.result != res)
  {
    StepAdvances(c, s, s', step, f);
    assert !FlightCarries(c, s, s.flights[f], res);
    if s'.flights[f].phase.Done? { BecomesDone(c, s, s', step, f); }
  }

  lemma HolderStaysClean(c: Config, s: Cache, s': Cache, step: Step, k: Key, res: Result, caller: Caller)
    requires Enabled(c, s, step) && s' == Apply(c, s, step) && FlightsClean(c, s, k, res)
    requires caller.Holding? && CallerOk(c.policy, s, caller) && !CallerCarries(c, s, caller, k, res)
    ensures !CallerCarries(c, s', caller, k, res)
  {
    var f := caller.flight;
    StepAdvances(c, s, s', step, f);
    if caller.req.key == k && !s.flights[f].phase.Done? { FinishesClean(c, s, s', step, k, res, f); }
  }

  /** While a call holds the flight lock nobody else starts or finishes a flight. */
  lemma LockFixesPending(c: Config, s: Cache, step: Step, id: nat)
    requires Inv(c, s) && Enabled(c, s, step) && !StepOf(step, id) && id in s.callers && HoldsLock(s.callers[id])
    ensures Apply(c, s, step).pending == s.pending
  {}

  lemma OtherStepStaysClean(c: Config, s: Cache, s': Cache, step: Step, k: Key, res: Result, id: nat)
    requires Inv(c, s) && Enabled(c, s, step) && s' == Apply(c, s, step) && Clean(c, s, k, res)
    requires !StepOf(step, id) && id in s.callers
    ensures id in s'.callers && !CallerCarries(c, s', s'.callers[id], k, res)
  {
    OthersLeaveCaller(c, s, s', step, id);
    TimeGoesOn(c, s, step);
    assert !CallerCarries(c, s, s.callers[id], k, res);
    assert CallerOk(c.policy, s, s.callers[id]);
    if s.callers[id].Holding? {
      HolderStaysClean(c, s, s', step, k, res, s.callers[id]);
    } else if HoldsLock(s.callers[id]) {
      LockFixesPending(c, s, step, id);
    }
  }

  /** Nobody was given `res` between the two states. */
  ghost predicate NoneServed(s: Cache, s': Cache, k: Key, res: Result) {
    forall id :: Served(s', id, k, res) ==> Served(s, id, k, res)
  }

  lemma CleanStep(c: Config, s: Cache, s': Cache, step: Step, k: Key, res: Result)
    requires Inv(c, s) && Enabled(c, s, step) && s' == Apply(c, s, step) && Clean(c, s, k, res) && |res.addrs| > 0
    requires !Produces(c, s, step, k, res)
    ensures Clean(c, s', k, res) && NoneServed(s, s', k, res)
  {
    ShardStaysClean(c, s, step, k, res);
    FlightsStayClean(c, s, s', step, k, res);
    forall id | id in s'.callers
      ensures !CallerCarries(c, s', s'.callers[id], k, res)
      ensures Served(s', id, k, res) ==> Served(s, id, k, res)
    {
      if StepOf(step, id) {
        OwnStepStaysClean(c, s, step, k, res, id);
      } else {
        OthersLeaveCaller(c, s, s', step, id);
        OtherStepStaysClean(c, s, s', step, k, res, id);
      }
    }
  }

  lemma CleanNext(c: Config, r: Run, i: nat, k: Key, res: Result)
    requires ValidRun(c, r) && i < |r.steps| && Clean(c, r.states[i], k, res) && |res.addrs| > 0
    requires !Produces(c, r.states[i], r.steps[i], k, res)
    ensures Clean(c, r.states[i + 1], k, res) && NoneServed(r.states[i], r.states[i + 1], k, res)
  {
    RunInv(c, r, i);
    assert Linked(c, r, i);
    CleanStep(c, r.states[i], r.states[i + 1], r.steps[i], k, res);
  }

  /** From a state in which nothing carries `res`, nobody is given it any more unless a resolver run produces it
      again. */
  lemma {:induction false} NeverServedAgain(c: Config, r: Run, a: nat, i: nat, k: Key, res: Result)
    requires ValidRun(c, r) && a <= i < |r.states| && Clean(c, r.states[a], k, res) && |res.addrs| > 0
    requires forall t :: a <= t < i ==> !Produces(c, r.states[t], r.steps[t], k, res)
    ensures Clean(c, r.states[i], k, res) && NoneServed(r.states[a], r.states[i], k, res)
    decreases i
  {
    if a < i {
      NeverServedAgain(c, r, a, i - 1, k, res);
      CleanNext(c, r, i - 1, k, res);
    }
  }

  // ---- a flight that carries an answer can bring it to a new caller ----

  ghost function Last(r: Run): Cache
    requires |r.states| > 0
  {
    r.states[|r.states| - 1]
  }

  /** `r'` continues `r`, and on the way no resolver run produces `res` for `k`. */
  ghost predicate Continues(c: Config, r: Run, r': Run, k: Key, res: Result) {
    && ValidRun(c, r') && |r.states| == |r.steps| + 1 && r.states <= r'.states && r.steps <= r'.steps
    && (forall t :: |r.steps| <= t < |r'.steps| ==> !Produces(c, r'.states[t], r'.steps[t], k, res))
  }

  /** Some continuation serves `res` to a caller that had not been served before. */
  ghost predicate ServedAgain(c: Config, r: Run, k: Key, res: Result)
    requires |r.states| > 0
  {
    exists r', id :: Continues(c, r, r', k, res) && Served(Last(r'), id, k, res) && !Served(Last(r), id, k, res)
  }

  lemma Extend(c: Config, r: Run, step: Step) returns (r': Run)
    requires ValidRun(c, r) && Enabled(c, Last(r), step)
    ensures ValidRun(c, r') && r.states <= r'.states && r'.steps == r.steps + [step]
    ensures Last(r') == Apply(c, Last(r), step) && Inv(c, Last(r'))
  {
    r' := Run(r.states + [Apply(c, Last(r), step)], r.steps + [step]);
    forall i | 0 <= i < |r'.steps| ensures Linked(c, r', i) {
      if i < |r.steps| { assert Linked(c, r, i); }
    }
    RunInv(c, r', |r'.states| - 1);
  }

  lemma GoOn(c: Config, r: Run, r': Run, step: Step, k: Key, res: Result) returns (r'': Run)
    requires Continues(c, r, r', k, res) && Enabled(c, Last(r'), step) && !Produces(c, Last(r'), step, k, res)
    ensures Continues(c, r, r'', k, res) && Last(r'') == Apply(c, Last(r'), step)
    ensures Inv(c, Last(r''))
  {
    r'' := Extend(c, r', step);
    forall t | |r.steps| <= t < |r''.steps| ensures !Produces(c, r''.states[t], r''.steps[t], k, res) {
      if t < |r'.steps| { assert !Produces(c, r'.states[t], r'.steps[t], k, res); }
    }
  }

  lemma {:induction false} FreshId(ids: set<nat>) returns (id: nat)
    ensures forall x :: x in ids ==> x < id
    decreases |ids|
  {
    if ids == {} {
      id := 0;
    } else {
      var x: nat :| x in ids;
      var y := FreshId(ids - {x});
      assert ids == (ids - {x}) + {x};
      id := if x < y then y else x + 1;
    }
  }

  /** Nothing is lost on the way from `s` to `s'` but what the holder of the flight lock was doing. */
  ghost predicate Kept(s: Cache, s': Cache) {
    && s'.now == s.now && s'.shards == s.shards && s.flights <= s'.flights && s'.callers.Keys == s.callers.Keys
    && (forall k :: k in s.table ==> k in s'.table && s'.table[k] == s.table[k])
    && (forall id :: id in s.callers && !HoldsLock(s.callers[id]) ==> s'.callers[id] == s.callers[id])
  }

  lemma HolderPeeks(c: Config, s: Cache, h: nat)
    requires Inv(c, s) && s.lock == Some(h) && s.callers[h].Peeking?
    ensures var s' := Apply(c, s, PeekFresh(h)); Kept(s, s') && s'.lock == s.lock && !s'.callers[h].Peeking?
  {}

  lemma HolderReleases(c: Config, s: Cache, h: nat, step: Step)
    requires Inv(c, s) && s.lock == Some(h) && Enabled(c, s, step) && step in {HandOut(h), Create(h)}
    ensures Kept(s, Apply(c, s, step)) && Apply(c, s, step).lock == None
  {}

  /** Whoever holds the flight lock can go on and give it up. */
  lemma FreeLock(c: Config, r: Run, r': Run, k: Key, res: Result) returns (r'': Run)
    requires Continues(c, r, r', k, res) && Inv(c, Last(r'))
    ensures Continues(c, r, r'', k, res) && Inv(c, Last(r'')) && Kept(Last(r'), Last(r'')) && Last(r'').lock == None
  {
    r'' := r';
    if Last(r').lock.Some? {
      var h := Last(r').lock.value;
      if Last(r').callers[h].Peeking? {
        HolderPeeks(c, Last(r'), h);
        r'' := GoOn(c, r, r', PeekFresh(h), k, res);
      }
      var step := if Last(r'').callers[h].Found? then HandOut(h) else Create(h);
      HolderReleases(c, Last(r''), h, step);
      r'' := GoOn(c, r, r'', step, k, res);
    }
  }

  /** `id` waits, for flight `f` of `k`, and the flight lock is free. */
  predicate Waits(s: Cache, id: nat, k: Key, f: nat) {
    && id in s.callers && s.callers[id].Holding? && s.callers[id].flight == f && s.callers[id].req.key == k
    && s.lock == None && f < |s.flights| && s.flights[f].key == k
  }

  /** A new caller finds nothing in the shard and joins the flight. */
  lemma Join(c: Config, r: Run, r': Run, k: Key, f: nat, res: Result) returns (r'': Run, id: nat)
    requires Continues(c, r, r', k, res) && Inv(c, Last(r')) && k !in HomeShard(c, Last(r'), k).entries
    requires k in Last(r').table && Last(r').table[k] == f
    ensures Continues(c, r, r'', k, res) && Inv(c, Last(r'')) && Waits(Last(r''), id, k, f) && id !in Last(r').callers
    ensures !Last(r'').callers[id].req.background
    ensures f < |Last(r').flights| && Last(r'').flights[f] == Last(r').flights[f] && Last(r'').now == Last(r').now
  {
    r'' := FreeLock(c, r, r', k, res);
    id := FreshId(Last(r'').callers.Keys);
    r'' := GoOn(c, r, r'', Ask(id, k), k, res);
    r'' := GoOn(c, r, r'', TakeEntry(id), k, res);
    r'' := GoOn(c, r, r'', LockFlights(id), k, res);
  }

  /** Some victim makes room whatever the shard holds. */
  lemma CanAlwaysInsert(shard: Shard, k: Key, e: Entry, now: Time) returns (victim: Option<Key>)
    requires Accounted(shard)
    ensures CanInsert(shard, k, e, now, [], victim)
  {
    var cleared, class_ := Drop(shard, k), IsPositive(e);
    if k in shard.entries { DeleteAccounted(shard, k); }
    victim := None;
    if Count(cleared, class_) >= Capacity(cleared, class_) {
      assert Members(cleared, class_) != {};
      var v :| v in Members(cleared, class_);
      victim := Some(v);
    }
  }

  /** Between `s` and `s'` only flight `f` has moved, and its entry may have been stored. */
  predicate OnlyFlight(s: Cache, s': Cache, f: nat) {
    s'.now == s.now && s'.callers == s.callers && s'.lock == s.lock == None && s'.table == s.table &&
    s'.pending == s.pending && f < |s.flights| == |s'.flights| && s'.flights[f].key == s.flights[f].key
  }

  /** The resolver of a running flight can fail now. */
  lemma ResolveOn(c: Config, r: Run, r': Run, k: Key, f: nat, res: Result) returns (r'': Run)
    requires Continues(c, r, r', k, res) && Inv(c, Last(r')) && Last(r').lock == None
    requires f < |Last(r').flights| && Last(r').flights[f].phase.Running?
    ensures Continues(c, r, r'', k, res) && Inv(c, Last(r'')) && OnlyFlight(Last(r'), Last(r''), f)
    ensures Last(r'').flights[f].phase.Resolved?
    ensures var flight := Last(r').flights[f];
      flight.stale == res && |res.addrs| > 0 && StillServable(c, Last(r').now, flight.staleUntil) ==>
        EntryCarries(c, Last(r'').flights[f].phase.entry, res)
  {
    r'' := GoOn(c, r, r', ResolverReturns(f, NO_RESULT, true), k, res);
  }

  lemma StoreOn(c: Config, r: Run, r': Run, k: Key, f: nat, res: Result) returns (r'': Run)
    requires Continues(c, r, r', k, res) && Inv(c, Last(r')) && Last(r').lock == None
    requires f < |Last(r').flights| && Last(r').flights[f].phase.Resolved?
    ensures Continues(c, r, r'', k, res) && Inv(c, Last(r'')) && OnlyFlight(Last(r'), Last(r''), f)
    ensures Last(r'').flights[f].phase == Stored(Last(r').flights[f].phase.entry, Last(r').flights[f].phase.at)
  {
    var s := Last(r');
    var key := s.flights[f].key;
    var Resolved(e, at) := s.flights[f].phase;
    assert ShardOk(c, s.produced, HomeShard(c, s, key), Home(c, key));
    var victim := CanAlwaysInsert(HomeShard(c, s, key), key, e, at);
    r'' := GoOn(c, r, r', InsertEntry(f, [], victim), k, res);
  }

  predicate ServesWhileRunning(f: Flight, res: Result) { f.serveStale && f.stale == res }

  /** The flight carries the answer in its entry, or will if its resolver fails now. */
  predicate FallsBackOn(c: Config, s: Cache, f: Flight, res: Result) {
    FlightCarries(c, s, f, res) && !ServesWhileRunning(f, res) && |res.addrs| > 0
  }

  /** Any unfinished flight can come to its end without producing anything. */
  lemma EndsStored(c: Config, r: Run, r': Run, k: Key, f: nat, res: Result) returns (r'': Run)
    requires Continues(c, r, r', k, res) && Inv(c, Last(r')) && Last(r').lock == None
    requires f < |Last(r').flights| && !Last(r').flights[f].phase.Done?
    ensures Continues(c, r, r'', k, res) && Inv(c, Last(r'')) && OnlyFlight(Last(r'), Last(r''), f)
    ensures Last(r'').flights[f].phase.Stored?
    ensures FallsBackOn(c, Last(r'), Last(r').flights[f], res) ==>
      EntryCarries(c, Last(r'').flights[f].phase.entry, res)
  {
    r'' := r';
    if Last(r'').flights[f].phase.Running? { r'' := ResolveOn(c, r, r'', k, f, res); }
    if Last(r'').flights[f].phase.Resolved? { r'' := StoreOn(c, r, r'', k, f, res); }
  }

  lemma FallsBack(c: Config, s: Cache, k: Key, e: Entry, at: Time, res: Result)
    requires BuiltOk(c.policy, s, k, e, at) && EntryCarries(c, e, res) && |res.addrs| > 0
    ensures FlightAnswer(c.policy, e, at) == Answer(res, Good, at)
  {}

  lemma FinishOn(c: Config, r: Run, r': Run, id: nat, k: Key, f: nat, res: Result) returns (r'': Run)
    requires Continues(c, r, r', k, res) && Inv(c, Last(r')) && Waits(Last(r'), id, k, f) && |res.addrs| > 0
    requires Last(r').flights[f].phase.Stored? && EntryCarries(c, Last(r').flights[f].phase.entry, res)
    ensures Continues(c, r, r'', k, res) && Served(Last(r''), id, k, res)
  {
    var s := Last(r');
    assert FlightOk(c.policy, s, s.flights[f]);
    FallsBack(c, s, k, s.flights[f].phase.entry, s.flights[f].phase.at, res);
    r'' := GoOn(c, r, r', Finish(f), k, res);
    r'' := GoOn(c, r, r'', Collect(id), k, res);
  }

  /** A flight that carries the answer brings it to whoever waits for it. */
  lemma Completes(c: Config, r: Run, r': Run, id: nat, k: Key, f: nat, res: Result) returns (r'': Run)
    requires Continues(c, r, r', k, res) && Inv(c, Last(r')) && Waits(Last(r'), id, k, f) && |res.addrs| > 0
    requires FlightCarries(c, Last(r'), Last(r').flights[f], res) && !Last(r').callers[id].req.background
    ensures Continues(c, r, r'', k, res) && Served(Last(r''), id, k, res)
  {
    if ServesWhileRunning(Last(r').flights[f], res) {
      r'' := GoOn(c, r, r', Collect(id), k, res);
    } else {
      r'' := EndsStored(c, r, r', k, f, res);
      r'' := FinishOn(c, r, r'', id, k, f, res);
    }
  }

  // ---- a waiting call that carries an answer can be given it ----

  /** A call about to start a flight below the cap, carrying the answer, ends up with it. */
  lemma Launches(c: Config, r: Run, r': Run, id: nat, k: Key, res: Result) returns (r'': Run)
    requires Continues(c, r, r', k, res) && Inv(c, Last(r')) && |res.addrs| > 0
    requires id in Last(r').callers && Last(r').callers[id].Creating?
    requires CallerCarries(c, Last(r'), Last(r').callers[id], k, res)
    ensures Continues(c, r, r'', k, res) && Served(Last(r''), id, k, res)
  {
    r'' := GoOn(c, r, r', Create(id), k, res);
    if Last(r'').callers[id].req.background {
      r'' := GoOn(c, r, r'', Collect(id), k, res);
    } else {
      r'' := Completes(c, r, r'', id, k, |Last(r').flights|, res);
    }
  }

  lemma PeeksAndLaunches(c: Config, r: Run, r': Run, id: nat, k: Key, res: Result) returns (r'': Run)
    requires Continues(c, r, r', k, res) && Inv(c, Last(r')) && |res.addrs| > 0
    requires k !in HomeShard(c, Last(r'), k).entries && id in Last(r').callers && Last(r').callers[id].Peeking?
    requires CallerCarries(c, Last(r'), Last(r').callers[id], k, res)
    ensures Continues(c, r, r'', k, res) && Served(Last(r''), id, k, res)
  {
    r'' := GoOn(c, r, r', PeekFresh(id), k, res);
    r'' := Launches(c, r, r'', id, k, res);
  }

  /** Any unfinished flight can be brought to its end, which makes room for its egress. */
  lemma Ends(c: Config, r: Run, r': Run, k: Key, f: nat, res: Result) returns (r'': Run)
    requires Continues(c, r, r', k, res) && Inv(c, Last(r')) && Last(r').lock == None
    requires f < |Last(r').flights| && !Last(r').flights[f].phase.Done?
    ensures Continues(c, r, r'', k, res) && Inv(c, Last(r'')) && Last(r'').lock == None
    ensures Last(r'').now == Last(r').now && Last(r'').callers == Last(r').callers
    ensures Last(r'').table == Last(r').table - {Last(r').flights[f].key}
    ensures Pending(Last(r''), Last(r').flights[f].key.egress) < c.policy.maxPending
  {
    r'' := EndsStored(c, r, r', k, f, res);
    var s, egress := Last(r''), Last(r').flights[f].key.egress;
    assert Pending(s, egress) == |InFlight(s.table, egress)| <= c.policy.maxPending;
    r'' := GoOn(c, r, r'', Finish(f), k, res);
  }

  /** `k` has no flight, its egress has room and the flight lock is free. */
  predicate RoomFor(c: Config, s: Cache, k: Key) {
    k !in s.table && Pending(s, k.egress) < c.policy.maxPending && s.lock == None
  }

  /** Whatever is going on, it can come to a rest in which there is room for a flight of `k`. */
  lemma MakesRoom(c: Config, r: Run, r': Run, k: Key, res: Result) returns (r'': Run)
    requires Continues(c, r, r', k, res) && Inv(c, Last(r'))
    ensures Continues(c, r, r'', k, res) && Inv(c, Last(r'')) && RoomFor(c, Last(r''), k)
    ensures Last(r'').now == Last(r').now && forall id :: id in Last(r').callers && !HoldsLock(Last(r').callers[id]) ==>
      id in Last(r'').callers && Last(r'').callers[id] == Last(r').callers[id]
  {
    r'' := FreeLock(c, r, r', k, res);
    var s := Last(r'');
    if k in s.table {
      r'' := Ends(c, r, r'', k, s.table[k], res);
    } else if Pending(s, k.egress) >= c.policy.maxPending {
      assert |InFlight(s.table, k.egress)| > 0;
      var other :| other in InFlight(s.table, k.egress);
      r'' := Ends(c, r, r'', k, s.table[other], res);
    }
  }

  lemma StartsAndLaunches(c: Config, r: Run, r': Run, id: nat, k: Key, res: Result) returns (r'': Run)
    requires Continues(c, r, r', k, res) && Inv(c, Last(r')) && |res.addrs| > 0
    requires id in Last(r').callers && Last(r').callers[id].Starting?
    requires CallerCarries(c, Last(r'), Last(r').callers[id], k, res)
    ensures Continues(c, r, r'', k, res) && Served(Last(r''), id, k, res)
  {
    r'' := MakesRoom(c, r, r', k, res);
    assert Last(r'').callers[id] == Last(r').callers[id];
    r'' := GoOn(c, r, r'', Invalidate(k), k, res);
    r'' := GoOn(c, r, r'', LockFlights(id), k, res);
    r'' := PeeksAndLaunches(c, r, r'', id, k, res);
  }

  lemma HandsOut(c: Config, r: Run, r': Run, id: nat, k: Key, res: Result) returns (r'': Run)
    requires Continues(c, r, r', k, res) && Inv(c, Last(r')) && |res.addrs| > 0
    requires id in Last(r').callers && Last(r').callers[id].Found?
    requires CallerCarries(c, Last(r'), Last(r').callers[id], k, res)
    ensures Continues(c, r, r'', k, res) && Served(Last(r''), id, k, res)
  {
    assert CallerOk(c.policy, Last(r'), Last(r').callers[id]);
    r'' := GoOn(c, r, r', HandOut(id), k, res);
    r'' := GoOn(c, r, r'', Collect(id), k, res);
  }

  lemma CallerIsServed(c: Config, r: Run, id: nat, k: Key, res: Result) returns (r': Run)
    requires Continues(c, r, r, k, res) && Inv(c, Last(r)) && |res.addrs| > 0
    requires k !in HomeShard(c, Last(r), k).entries
    requires id in Last(r).callers && CallerCarries(c, Last(r), Last(r).callers[id], k, res)
    ensures Continues(c, r, r', k, res) && Served(Last(r'), id, k, res)
  {
    match Last(r).callers[id]
    case Starting(_) => r' := StartsAndLaunches(c, r, r, id, k, res);
    case Peeking(_, _) => r' := PeeksAndLaunches(c, r, r, id, k, res);
    case Found(_, _, _) => r' := HandsOut(c, r, r, id, k, res);
    case Creating(_, _) => r' := Launches(c, r, r, id, k, res);
    case Holding(_, _) => r' := GoOn(c, r, r, Collect(id), k, res);
  }

  /** Some waiting call, or the flight of `k`, carries `res`. */
  ghost predicate Carried(c: Config, s: Cache, k: Key, res: Result) {
    || (exists id :: id in s.callers && CallerCarries(c, s, s.callers[id], k, res))
    || (k in s.table && s.table[k] < |s.flights| && FlightCarries(c, s, s.flights[s.table[k]], res))
  }

  lemma FlightServes(c: Config, r: Run, k: Key, res: Result) returns (r': Run)
    requires Continues(c, r, r, k, res) && Inv(c, Last(r)) && |res.addrs| > 0
    requires k !in HomeShard(c, Last(r), k).entries
    requires k in Last(r).table && FlightCarries(c, Last(r), Last(r).flights[Last(r).table[k]], res)
    ensures Continues(c, r, r', k, res)
    ensures exists id :: Served(Last(r'), id, k, res) && !Served(Last(r), id, k, res)
  {
    var f := Last(r).table[k];
    var joined, id := Join(c, r, r, k, f, res);
    r' := Completes(c, r, joined, id, k, f, res);
    assert Served(Last(r'), id, k, res) && !Served(Last(r), id, k, res);
  }

  lemma CarriedIsServed(c: Config, r: Run, k: Key, res: Result)
    requires ValidRun(c, r) && Inv(c, Last(r)) && |res.addrs| > 0 && k !in HomeShard(c, Last(r), k).entries
    requires Carried(c, Last(r), k, res)
    ensures ServedAgain(c, r, k, res)
  {
    var s := Last(r);
    if id :| id in s.callers && CallerCarries(c, s, s.callers[id], k, res) {
      var r' := CallerIsServed(c, r, id, k, res);
      assert !Served(s, id, k, res);
    } else {
      var r' := FlightServes(c, r, k, res);
    }
  }

  lemma UncarriedIsClean(c: Config, s: Cache, k: Key, res: Result)
    requires Inv(c, s) && k !in HomeShard(c, s, k).entries && !Carried(c, s, k, res)
    ensures Clean(c, s, k, res)
  {}

  /** An answer dropped by an invalidation can be served again, without any resolver run producing it again, if and
      only if at that moment a waiting call or the key's running flight carries it. */
  lemma ServedAfterInvalidation(c: Config, r: Run, k: Key, res: Result)
    requires ValidRun(c, r) && |r.steps| > 0 && r.steps[|r.steps| - 1] == Invalidate(k) && |res.addrs| > 0
    ensures ServedAgain(c, r, k, res) <==> Carried(c, Last(r), k, res)
  {
    var n := |r.steps|;
    RunInv(c, r, n);
    assert Linked(c, r, n - 1);
    if Carried(c, Last(r), k, res) {
      CarriedIsServed(c, r, k, res);
    } else {
      UncarriedIsClean(c, Last(r), k, res);
      forall r', id | Continues(c, r, r', k, res) && Served(Last(r'), id, k, res) ensures Served(Last(r), id, k, res) {
        NeverServedAgain(c, r', n, |r'.states| - 1, k, res);
      }
    }
  }

  lemma FirstFlight(c: Config, k: Key) returns (r: Run)
    requires ValidPolicy(c.policy)
    ensures ValidRun(c, r) && Inv(c, Last(r)) && Last(r).now == 0 && Last(r).table == map[k := 0]
    ensures |Last(r).flights| == 1 && Last(r).flights[0].phase.Running? && Last(r).flights[0].key == k
  {
    r := Run([Init(c)], []);
    r := Extend(c, r, Ask(0, k));
    r := Extend(c, r, TakeEntry(0));
    r := Extend(c, r, LockFlights(0));
    r := Extend(c, r, PeekFresh(0));
    r := Extend(c, r, Create(0));
  }

  /** It does happen, under every policy and for every key: a resolver run that returned before the invalidation
      stores its answer after it. */
  lemma InvalidationOutrun(c: Config, k: Key, raw: Result) returns (r: Run)
    requires ValidPolicy(c.policy) && Normalize(c.policy, raw, false, 0).0.rcode == Success
    ensures ValidRun(c, r) && |r.steps| > 0 && r.steps[|r.steps| - 1] == Invalidate(k)
    ensures ServedAgain(c, r, k, Normalize(c.policy, raw, false, 0).0)
  {
    r := FirstFlight(c, k);
    r := Extend(c, r, ResolverReturns(0, raw, false));
    r := Extend(c, r, Invalidate(k));
    ServedAfterInvalidation(c, r, k, Normalize(c.policy, raw, false, 0).0);
  }
}
