/** What every call to the DNS cache is given: by an entry, by the run it waits for, or by the refresh it joins. */
module DnsAnswers {
  import opened Options
  import opened DnsModel
  import opened DnsProtocol
  import opened DnsInvariants
  import opened DnsRuns
  import opened DnsReadings

  // ---- what an entry gives ----

  /** What an unexpired entry gives at clock reading `now`: a success or an authoritative negative as it is; for a
      transient failure the answer it carries, where the policy and the horizon allow, else the failure. */
  ghost predicate EntryGives(p: Policy, e: Entry, now: Time, a: Answer) {
    match e.result.rcode
    case Success => a.result == e.result && a.outcome == Good
    case NxDomain => a.result == e.result && a.outcome == Good
    case NoData => a.result == e.result && a.outcome == Good
    case Transient =>
      if p.staleTransient && e.stale.addrs != [] && now < e.staleUntil then a.result == e.stale && a.outcome == Good
      else a.result == e.result && a.outcome == Failed
    case Other => false
  }

  lemma StoredEntryOk(c: Config, s: Cache, k: Key)
    requires Inv(c, s) && Lookup(c, s, k).Some?
    ensures EntryOk(c.policy, s.produced, k, Lookup(c, s, k).value)
  {
    assert ShardOk(c, s.produced, HomeShard(c, s, k), Home(c, k));
  }

  lemma TakeGives(c: Config, s: Cache, id: nat, k: Key, readAt: Time, e: Entry)
    requires Inv(c, s) && id in s.callers && s.callers[id] == Asked(k, readAt)
    requires Lookup(c, s, k) == Some(e) && readAt < e.result.expiresAt
    ensures var s' := Apply(c, s, TakeEntry(id));
      && id in s'.callers && s'.callers[id].Answered? && s'.callers[id].key == k
      && EntryGives(c.policy, e, readAt, s'.callers[id].answer)
      && Lookup(c, s', k) == Some(e)
  {
    StoredEntryOk(c, s, k);
  }

  /** What a call that found no unexpired entry carries on: an expired success inside its window, to fall back on; the
      answer a transient failure carries, to serve at once while it is refreshed; or nothing. */
  ghost predicate MissCarries(p: Policy, found: Option<Entry>, now: Time, req: Request) {
    if found.Some? && found.value.result.rcode == Success && now < found.value.staleUntil then
      req.stale == found.value.result && req.staleUntil == found.value.staleUntil && !req.background
    else if found.Some? && found.value.result.rcode == Transient && found.value.stale.addrs != [] &&
            p.staleTransient && now < found.value.staleUntil then
      req.stale == found.value.stale && req.staleUntil == found.value.staleUntil && req.background
    else req.stale.addrs == [] && !req.background
  }

  lemma TakeMisses(c: Config, s: Cache, id: nat, k: Key, readAt: Time)
    requires Inv(c, s) && id in s.callers && s.callers[id] == Asked(k, readAt)
    requires Lookup(c, s, k).Some? ==> Lookup(c, s, k).value.result.expiresAt <= readAt
    ensures var s' := Apply(c, s, TakeEntry(id));
      && id in s'.callers && s'.callers[id].Starting? && s'.callers[id].req.key == k
      && MissCarries(c.policy, Lookup(c, s, k), readAt, s'.callers[id].req)
      && Lookup(c, s', k) == if s'.callers[id].req.background then Lookup(c, s, k) else None
  {
    if Lookup(c, s, k).Some? { StoredEntryOk(c, s, k); }
  }

  /** A call that looks up its key is answered at once exactly when the shard holds an unexpired entry for it, judged
      by the clock reading of its own Ask, and is given what that entry gives; else it goes on with what it carries,
      and takes an expired entry out unless it refreshes it. */
  lemma LookUp(c: Config, r: Run, t: nat, id: nat) returns (q: nat, k: Key)
    requires ValidRun(c, r) && t < |r.steps| && r.steps[t] == TakeEntry(id)
    ensures q < t && r.steps[q] == Ask(id, k) && id in r.states[t + 1].callers
    ensures var found, caller, now := Lookup(c, r.states[t], k), r.states[t + 1].callers[id], r.states[q].now;
      if found.Some? && now < found.value.result.expiresAt then
        && caller.Answered? && caller.key == k && EntryGives(c.policy, found.value, now, caller.answer)
        && Lookup(c, r.states[t + 1], k) == found
      else
        && caller.Starting? && caller.req.key == k && MissCarries(c.policy, found, now, caller.req)
        && Lookup(c, r.states[t + 1], k) == if caller.req.background then found else None
  {
    assert Linked(c, r, t);
    RunInv(c, r, t);
    q := OwnAsk(c, r, t, id);
    k := r.states[t].callers[id].key;
    var found := Lookup(c, r.states[t], k);
    if found.Some? && r.states[q].now < found.value.result.expiresAt {
      TakeGives(c, r.states[t], id, k, r.states[q].now, found.value);
    } else {
      TakeMisses(c, r.states[t], id, k, r.states[q].now);
    }
  }

  lemma AnswerStays(c: Config, s: Cache, s': Cache, step: Step, id: nat)
    requires Enabled(c, s, step) && s' == Apply(c, s, step) && id in s.callers && s.callers[id].Answered?
    ensures id in s'.callers && s'.callers[id] == s.callers[id]
  {}

  lemma {:induction false} AnswerIsFinal(c: Config, r: Run, a: nat, b: nat, id: nat)
    requires ValidRun(c, r) && a <= b < |r.states| && id in r.states[a].callers && r.states[a].callers[id].Answered?
    ensures id in r.states[b].callers && r.states[b].callers[id] == r.states[a].callers[id]
    decreases b
  {
    if a < b {
      AnswerIsFinal(c, r, a, b - 1, id);
      assert Linked(c, r, b - 1);
      AnswerStays(c, r.states[b - 1], r.states[b], r.steps[b - 1], id);
    }
  }

  /** The cache serves what it stores: a call that asks while an unexpired entry is stored, and looks it up before the
      entry is gone or replaced, is given what the entry gives, for good. */
  lemma StoredIsServed(c: Config, r: Run, q: nat, t: nat, i: nat, id: nat, k: Key, e: Entry)
    requires ValidRun(c, r) && q < t < i < |r.states| && r.steps[q] == Ask(id, k) && r.steps[t] == TakeEntry(id)
    requires Lookup(c, r.states[q], k) == Some(e) && r.states[q].now < e.result.expiresAt && !GoneBetween(r, k, e, q, t)
    requires forall x :: q <= x < t ==> !StoresFor(r.states[x], r.steps[x], k)
    ensures id in r.states[i].callers && r.states[i].callers[id].Answered? && r.states[i].callers[id].key == k
    ensures EntryGives(c.policy, e, r.states[q].now, r.states[i].callers[id].answer)
  {
    EntryPersists(c, r, k, e, q, t);
    ClockMonotone(c, r, q, t);
    var q', k' := LookUp(c, r, t, id);
    AskedOnce(c, r, q, q', id);
    AnswerIsFinal(c, r, t + 1, i, id);
  }

  // ---- what a flight carries ----

  lemma RequestStays(c: Config, s: Cache, s': Cache, step: Step, id: nat)
    requires Enabled(c, s, step) && s' == Apply(c, s, step) && id in s.callers
    requires !s.callers[id].Asked? && Waiting(s, id) && id in s'.callers && Waiting(s', id)
    ensures !s'.callers[id].Asked? && s'.callers[id].req == s.callers[id].req
  {
    if !StepOf(step, id) { OthersLeaveCaller(c, s, s', step, id); }
  }

  /** What a call carries away from its look-up it still carries when it starts or joins a flight. */
  lemma {:induction false} RequestKept(c: Config, r: Run, a: nat, b: nat, id: nat)
    requires ValidRun(c, r) && a <= b < |r.states| && id in r.states[a].callers && !r.states[a].callers[id].Asked?
    requires Waiting(r.states[a], id) && Waiting(r.states[b], id)
    ensures !r.states[b].callers[id].Asked? && r.states[b].callers[id].req == r.states[a].callers[id].req
    decreases b
  {
    if a < b {
      CallersStay(c, r, a, b - 1, id);
      if r.states[b - 1].callers[id].Answered? {
        AnswerIsFinal(c, r, b - 1, b, id);
      } else {
        RequestKept(c, r, a, b - 1, id);
        assert Linked(c, r, b - 1);
        RequestStays(c, r.states[b - 1], r.states[b], r.steps[b - 1], id);
      }
    }
  }

  /** The flight was launched with what the call carries. */
  ghost predicate LaunchedWith(f: Flight, req: Request) {
    f.key == req.key && f.stale == req.stale && f.staleUntil == req.staleUntil && f.serveStale == req.background
  }

  lemma CreateLaunches(c: Config, s: Cache, id: nat)
    requires Enabled(c, s, Create(id)) && |s.flights| < |Apply(c, s, Create(id)).flights|
    ensures var s', f := Apply(c, s, Create(id)), |s.flights|;
      LaunchedWith(s'.flights[f], s.callers[id].req) && s'.flights[f].phase.Running? &&
      id in s'.callers && s'.callers[id] == Holding(s.callers[id].req, f)
  {}

  /** Every flight is launched with what its call carried away from its own look-up. */
  lemma LaunchCarries(c: Config, r: Run, t: nat, l: nat, i: nat, id: nat, f: nat)
    requires ValidRun(c, r) && t < l < i < |r.states| && r.steps[t] == TakeEntry(id)
    requires Makes(r, l, id, f) && r.steps[l] == Create(id) && f < |r.states[i].flights|
    ensures id in r.states[t + 1].callers && r.states[t + 1].callers[id].Starting?
    ensures LaunchedWith(r.states[i].flights[f], r.states[t + 1].callers[id].req)
  {
    assert Linked(c, r, t) && Linked(c, r, l);
    CreateLaunches(c, r.states[l], id);
    if r.states[t + 1].callers[id].Answered? {
      AnswerIsFinal(c, r, t + 1, l, id);
    } else {
      RequestKept(c, r, t + 1, l, id);
    }
    var m, id' := FlightOrigin(c, r, i, f);
    MadeOnce(c, r, l, id, m, id', f);
  }

  // ---- what a resolver run gives ----

  predicate Failing(raw: Result, failed: bool) { failed || raw.rcode == Transient || raw.rcode == Other }

  /** What a flight stores and answers when its resolver returns `raw` at `now`: a definite outcome as it is; after a
      failure the answer it carries, while that is inside its horizon. */
  ghost predicate Builds(p: Policy, f: Flight, raw: Result, failed: bool, now: Time, e: Entry)
    requires ValidPolicy(p)
  {
    && e.result == Normalize(p, raw, failed, now).0
    && (e.result.rcode == Transient <==> Failing(raw, failed))
    && (if Failing(raw, failed) && f.stale.addrs != [] && now < f.staleUntil
        then e.stale == f.stale && e.staleUntil == f.staleUntil
        else e.stale.addrs == [])
    && (e.result.rcode == Success ==> e.staleUntil == e.result.expiresAt + p.staleWindow)
    && (e.err == NoErr <==> !Failing(raw, failed))
  }

  lemma ReturnBuilds(c: Config, s: Cache, f: nat, raw: Result, failed: bool)
    requires Enabled(c, s, ResolverReturns(f, raw, failed))
    ensures var s' := Apply(c, s, ResolverReturns(f, raw, failed));
      && s'.flights[f].phase.Resolved? && s'.flights[f].phase.at == s.now
      && Builds(c.policy, s.flights[f], raw, failed, s.now, s'.flights[f].phase.entry)
  {}

  predicate HasEntry(f: Flight) { f.phase.Resolved? || f.phase.Stored? }

  lemma EntryStays(c: Config, s: Cache, s': Cache, step: Step, f: nat)
    requires Enabled(c, s, step) && s' == Apply(c, s, step) && f < |s.flights| && HasEntry(s.flights[f])
    requires f < |s'.flights| && HasEntry(s'.flights[f])
    ensures s'.flights[f].phase.entry == s.flights[f].phase.entry
  {
    StepAdvances(c, s, s', step, f);
  }

  /** What a flight has resolved to was built when its own run returned. */
  lemma {:induction false} EntryBuilt(c: Config, r: Run, i: nat, f: nat) returns (m: nat)
    requires ValidRun(c, r) && i < |r.states| && f < |r.states[i].flights| && HasEntry(r.states[i].flights[f])
    ensures m < i && Returns(r, m, f) && r.states[i].flights[f].phase.at == r.states[m].now
    ensures Builds(c.policy, r.states[i].flights[f], r.steps[m].raw, r.steps[m].failed, r.states[m].now,
      r.states[i].flights[f].phase.entry)
    decreases i
  {
    if i > 0 {
      assert Linked(c, r, i - 1);
      var s, s', step := r.states[i - 1], r.states[i], r.steps[i - 1];
      KeepsCompletion(c, s, s', step, f);
      StepAdvances(c, s, s', step, f);
      if HasEntry(s.flights[f]) {
        m := EntryBuilt(c, r, i - 1, f);
        EntryStays(c, s, s', step, f);
      } else {
        m := i - 1;
        ReturnBuilds(c, s, f, step.raw, step.failed);
      }
    }
  }

  /** What waiting for the run gives: the definite outcome; or after a failure the carried answer, where the policy and
      the horizon allow; else the failure. */
  ghost predicate RunGives(p: Policy, f: Flight, raw: Result, failed: bool, now: Time, a: Answer)
    requires ValidPolicy(p)
  {
    if !Failing(raw, failed) then a.result == Normalize(p, raw, failed, now).0 && a.outcome == Good
    else if p.staleTransient && f.stale.addrs != [] && now < f.staleUntil then a.result == f.stale && a.outcome == Good
    else a.result.addrs == [] && a.result.rcode == Transient && a.outcome == Failed
  }

  lemma BuiltGives(p: Policy, f: Flight, raw: Result, failed: bool, now: Time, e: Entry)
    requires ValidPolicy(p) && Builds(p, f, raw, failed, now, e)
    ensures RunGives(p, f, raw, failed, now, FlightAnswer(p, e, now))
  {}

  /** A flight that was launched is answered by its own run. */
  lemma FlightGives(c: Config, r: Run, l: nat, i: nat, id: nat, f: nat) returns (m: nat)
    requires ValidRun(c, r) && i < |r.states| && Makes(r, l, id, f) && r.steps[l] == Create(id)
    requires f < |r.states[i].flights| && r.states[i].flights[f].phase.Done?
    ensures m < i && Returns(r, m, f)
    ensures RunGives(c.policy, r.states[i].flights[f], r.steps[m].raw, r.steps[m].failed, r.states[m].now,
      r.states[i].flights[f].phase.answer)
  {
    var d := DoneOrigin(c, r, i, f);
    if r.steps[d].HandOut? {
      assert Linked(c, r, d);
      MadeOnce(c, r, l, id, d, r.steps[d].id, f);
    } else {
      m := EntryBuilt(c, r, d, f);
      SameFlight(c, r, d, i, f);
      BuiltGives(c.policy, r.states[d].flights[f], r.steps[m].raw, r.steps[m].failed, r.states[m].now,
        r.states[d].flights[f].phase.entry);
    }
  }

  lemma SameFlight(c: Config, r: Run, a: nat, b: nat, f: nat)
    requires ValidRun(c, r) && a <= b < |r.states| && f < |r.states[a].flights| && f < |r.states[b].flights|
    ensures r.states[b].flights[f] == r.states[a].flights[f].(phase := r.states[b].flights[f].phase)
  {
    var l, id := FlightOrigin(c, r, a, f);
    var l', id' := FlightOrigin(c, r, b, f);
    MadeOnce(c, r, l, id, l', id', f);
  }

  // ---- what a call that holds a flight is given ----

  /** A finished flight gives its answer; before that a call that came to refresh serves what it carries itself, and
      one that joined a refresh what the refresh carries. */
  lemma CollectGives(c: Config, r: Run, p: nat, id: nat, f: nat)
    requires ValidRun(c, r) && Collects(r, p, id, f)
    ensures f < |r.states[p].flights| && id in r.states[p + 1].callers && r.states[p + 1].callers[id].Answered?
    ensures var flight, req := r.states[p].flights[f], r.states[p].callers[id].req;
      var Answered(k, a) := r.states[p + 1].callers[id];
      && k == req.key
      && (flight.phase.Done? ==> a == flight.phase.answer)
      && (!flight.phase.Done? && req.background ==> a.result == req.stale && a.outcome == Good)
      && (!flight.phase.Done? && !req.background ==>
            flight.serveStale && a.result == flight.stale && a.outcome == Good)
  {
    assert Linked(c, r, p);
  }

  /** A call that finds an expired failure with a servable answer asks for a refresh, and unless the flight it then
      holds is finished is given that answer at once. */
  lemma RefreshServed(c: Config, r: Run, q: nat, t: nat, p: nat, id: nat, f: nat, k: Key, e: Entry)
    requires ValidRun(c, r) && q < t < p < |r.steps| && r.steps[q] == Ask(id, k) && r.steps[t] == TakeEntry(id)
    requires Lookup(c, r.states[t], k) == Some(e) && e.result.rcode == Transient && e.stale.addrs != []
    requires c.policy.staleTransient && e.result.expiresAt <= r.states[q].now < e.staleUntil
    requires Collects(r, p, id, f) && f < |r.states[p].flights| && !r.states[p].flights[f].phase.Done?
    ensures id in r.states[p + 1].callers && r.states[p + 1].callers[id].Answered?
    ensures r.states[p + 1].callers[id].answer.result == e.stale && r.states[p + 1].callers[id].answer.outcome == Good
  {
    var q', k' := LookUp(c, r, t, id);
    AskedOnce(c, r, q, q', id);
    RequestKept(c, r, t + 1, p, id);
    CollectGives(c, r, p, id, f);
  }

  /** Every way a call can end: an entry answers it, it collects from its flight, its egress is at the cap, or it gives
      up. */
  lemma HowAnswered(c: Config, r: Run, p: nat, id: nat)
    requires ValidRun(c, r) && p < |r.steps| && Waiting(r.states[p], id)
    requires id in r.states[p + 1].callers && r.states[p + 1].callers[id].Answered?
    ensures var Answered(k, a) := r.states[p + 1].callers[id];
      && k == AskedKey(r.states[p].callers[id])
      && (|| r.steps[p] == TakeEntry(id) || r.steps[p] == Collect(id)
          || (r.steps[p] == Create(id) && a.outcome == PendingLimit && a.result.addrs == [] &&
              Pending(r.states[p], k.egress) >= c.policy.maxPending)
          || (r.steps[p] == Cancel(id) && a.outcome == Cancelled && a.result.addrs == []))
  {
    assert Linked(c, r, p);
    if !StepOf(r.steps[p], id) { OthersLeaveCaller(c, r.states[p], r.states[p + 1], r.steps[p], id); }
  }

  /** The re-check under the flight lock gives what the entry it saw gives. */
  lemma RecheckGives(c: Config, r: Run, m: nat, id: nat)
    requires ValidRun(c, r) && m < |r.steps| && r.steps[m] == HandOut(id)
    ensures id in r.states[m].callers && r.states[m].callers[id].Found?
    ensures var s', f := r.states[m + 1], |r.states[m].flights|;
      && id in s'.callers && s'.callers[id] == Holding(r.states[m].callers[id].req, f)
      && f < |s'.flights| && s'.flights[f].phase.Done?
      && EntryGives(c.policy, r.states[m].callers[id].entry, r.states[m].now, s'.flights[f].phase.answer)
  {
    assert Linked(c, r, m);
    RunInv(c, r, m);
    assert CallerOk(c.policy, r.states[m], r.states[m].callers[id]);
  }

  /** The re-check sees the entry stored for the key, if it is unexpired at the reading taken under the lock. */
  lemma RecheckSees(c: Config, r: Run, m: nat, id: nat)
    requires ValidRun(c, r) && m < |r.steps| && r.steps[m] == PeekFresh(id)
    ensures id in r.states[m].callers && r.states[m].callers[id].Peeking? && id in r.states[m + 1].callers
    ensures var Peeking(req, at) := r.states[m].callers[id];
      var found, caller := Lookup(c, r.states[m], req.key), r.states[m + 1].callers[id];
      if found.Some? && at < found.value.result.expiresAt then caller == Found(req, at, found.value)
      else caller == Creating(req, at)
  {
    assert Linked(c, r, m);
  }

  ghost predicate NoneUnfinished(s: Cache, k: Key) {
    forall f :: 0 <= f < |s.flights| && s.flights[f].key == k ==> s.flights[f].phase.Done?
  }

  /** A call that reaches the flight table joins the key's unfinished flight if there is one. */
  lemma JoinsUnfinished(c: Config, r: Run, m: nat, id: nat)
    requires ValidRun(c, r) && m < |r.steps| && r.steps[m] == LockFlights(id)
    ensures id in r.states[m].callers && r.states[m].callers[id].Starting? && id in r.states[m + 1].callers
    ensures var req, caller := r.states[m].callers[id].req, r.states[m + 1].callers[id];
      if caller.Holding? then
        caller.req == req && caller.flight < |r.states[m].flights| &&
        r.states[m].flights[caller.flight].key == req.key && !r.states[m].flights[caller.flight].phase.Done?
      else
        caller == Peeking(req, r.states[m].now) && NoneUnfinished(r.states[m], req.key)
  {
    assert Linked(c, r, m);
    RunInv(c, r, m);
  }

  /** An expired success inside its window reaches the flight its call launches, with its own horizon. */
  lemma ExpiredSuccessCarried(c: Config, r: Run, q: nat, t: nat, l: nat, i: nat, id: nat, f: nat, k: Key, e: Entry)
    requires ValidRun(c, r) && q < t < l < i < |r.states| && r.steps[q] == Ask(id, k) && r.steps[t] == TakeEntry(id)
    requires Makes(r, l, id, f) && r.steps[l] == Create(id) && f < |r.states[i].flights|
    requires Lookup(c, r.states[t], k) == Some(e) && e.result.rcode == Success
    requires e.result.expiresAt <= r.states[q].now < e.staleUntil
    ensures var flight := r.states[i].flights[f];
      && flight.key == k && flight.stale == e.result && |e.result.addrs| > 0
      && flight.staleUntil == e.result.expiresAt + c.policy.staleWindow
  {
    RunInv(c, r, t);
    StoredEntryOk(c, r.states[t], k);
    var q', k' := LookUp(c, r, t, id);
    AskedOnce(c, r, q, q', id);
    LaunchCarries(c, r, t, l, i, id, f);
  }

  /** Stale on failure, end to end: a call finds an expired success inside its window and launches a run; if that run
      fails inside the window and the policy serves stale answers, everyone who waits for it is given that success; if
      it fails otherwise, everyone is given the failure; and a definite outcome is given as it is. */
  lemma ExpiredSuccessServed(c: Config, r: Run, q: nat, t: nat, l: nat, m: nat, p: nat, id: nat, f: nat, k: Key,
                             e: Entry, waiter: nat)
    requires ValidRun(c, r) && q < t < l < p < |r.steps| && r.steps[q] == Ask(id, k) && r.steps[t] == TakeEntry(id)
    requires Makes(r, l, id, f) && r.steps[l] == Create(id)
    requires Lookup(c, r.states[t], k) == Some(e) && e.result.rcode == Success
    requires e.result.expiresAt <= r.states[q].now < e.staleUntil
    requires Returns(r, m, f) && Collects(r, p, waiter, f)
    requires f < |r.states[p].flights| && r.states[p].flights[f].phase.Done?
    ensures waiter in r.states[p + 1].callers && r.states[p + 1].callers[waiter].Answered?
    ensures var a := r.states[p + 1].callers[waiter].answer;
      if !Failing(r.steps[m].raw, r.steps[m].failed) then
        a.outcome == Good && a.result == Normalize(c.policy, r.steps[m].raw, r.steps[m].failed, r.states[m].now).0
      else if c.policy.staleTransient && r.states[m].now < e.result.expiresAt + c.policy.staleWindow then
        a.outcome == Good && a.result == e.result
      else a.outcome == Failed && a.result.addrs == []
  {
    ExpiredSuccessCarried(c, r, q, t, l, p, id, f, k, e);
    var m' := FlightGives(c, r, l, p, id, f);
    ReturnsOnce(c, r, m, m', f);
    CollectGives(c, r, p, waiter, f);
  }

  lemma ReturnsOnce(c: Config, r: Run, m: nat, m': nat, f: nat)
    requires ValidRun(c, r) && Returns(r, m, f) && Returns(r, m', f)
    ensures m == m'
  {
    assert Linked(c, r, m) && Linked(c, r, m');
    if m < m' { FlightSurvives(c, r, f, m + 1, m'); }
    if m' < m { FlightSurvives(c, r, f, m' + 1, m); }
  }
}
