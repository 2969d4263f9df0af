/** Which clock reading every answer of the DNS cache was judged by. */
module DnsReadings {
  import opened DnsModel
  import opened DnsProtocol
  import opened DnsInvariants
  import opened DnsRuns

  // ---- a caller's own readings ----

  predicate Waiting(s: Cache, id: nat) { id in s.callers && !s.callers[id].Answered? }

  function AskedKey(caller: Caller): Key {
    if caller.Asked? || caller.Answered? then caller.key else caller.req.key
  }

  /** The clock reading a call that is not yet answered began with. */
  function AskedAt(caller: Caller): Time
    requires !caller.Answered?
  {
    if caller.Asked? then caller.readAt else caller.req.readAt
  }

  predicate StepOf(step: Step, id: nat) {
    match step
    case Ask(i, _) => i == id
    case TakeEntry(i) => i == id
    case LockFlights(i) => i == id
    case PeekFresh(i) => i == id
    case HandOut(i) => i == id
    case Create(i) => i == id
    case Collect(i) => i == id
    case Cancel(i) => i == id
    case _ => false
  }

  lemma OthersLeaveCaller(c: Config, s: Cache, s': Cache, step: Step, id: nat)
    requires Enabled(c, s, step) && s' == Apply(c, s, step) && !StepOf(step, id)
    ensures id in s'.callers <==> id in s.callers
    ensures id in s.callers ==> s'.callers[id] == s.callers[id]
  {}

  lemma KeepsReading(c: Config, s: Cache, s': Cache, step: Step, id: nat)
    requires Enabled(c, s, step) && s' == Apply(c, s, step) && Waiting(s', id)
    ensures id in s.callers ==> Waiting(s, id)
    ensures id in s.callers ==> AskedKey(s'.callers[id]) == AskedKey(s.callers[id])
    ensures id in s.callers ==> AskedAt(s'.callers[id]) == AskedAt(s.callers[id])
    ensures id !in s.callers ==> step == Ask(id, AskedKey(s'.callers[id])) && AskedAt(s'.callers[id]) == s.now
  {}

  /** Every waiting call began with an Ask of its own that read the clock. */
  lemma {:induction false} OwnAsk(c: Config, r: Run, i: nat, id: nat) returns (q: nat)
    requires ValidRun(c, r) && i < |r.states| && Waiting(r.states[i], id)
    ensures q < i && r.steps[q] == Ask(id, AskedKey(r.states[i].callers[id]))
    ensures r.states[q].now == AskedAt(r.states[i].callers[id])
    decreases i
  {
    if i > 0 {
      assert Linked(c, r, i - 1);
      KeepsReading(c, r.states[i - 1], r.states[i], r.steps[i - 1], id);
      if id in r.states[i - 1].callers { q := OwnAsk(c, r, i - 1, id); } else { q := i - 1; }
    }
  }

  lemma KeepsPeekReading(c: Config, s: Cache, s': Cache, step: Step, id: nat)
    requires Enabled(c, s, step) && s' == Apply(c, s, step) && id in s'.callers && HoldsLock(s'.callers[id])
    ensures id in s.callers && AskedKey(s.callers[id]) == AskedKey(s'.callers[id])
    ensures if HoldsLock(s.callers[id]) then s.callers[id].peekAt == s'.callers[id].peekAt
      else step == LockFlights(id) && s.now == s'.callers[id].peekAt
  {
    if !StepOf(step, id) { OthersLeaveCaller(c, s, s', step, id); }
  }

  /** The reading of the re-check was taken by the caller's own locking step. */
  lemma {:induction false} OwnLock(c: Config, r: Run, i: nat, id: nat) returns (q: nat)
    requires ValidRun(c, r) && i < |r.states| && id in r.states[i].callers && HoldsLock(r.states[i].callers[id])
    ensures q < i && r.steps[q] == LockFlights(id) && r.states[q].now == r.states[i].callers[id].peekAt
    ensures Waiting(r.states[q], id) && AskedKey(r.states[q].callers[id]) == AskedKey(r.states[i].callers[id])
    decreases i
  {
    if i > 0 {
      assert Linked(c, r, i - 1);
      KeepsPeekReading(c, r.states[i - 1], r.states[i], r.steps[i - 1], id);
      if HoldsLock(r.states[i - 1].callers[id]) { q := OwnLock(c, r, i - 1, id); } else { q := i - 1; }
    }
  }

  // ---- where flights come from ----

  /** Step `l` makes flight `f` on behalf of `id`. */
  predicate Makes(r: Run, l: nat, id: nat, f: nat) {
    && l < |r.steps| < |r.states|
    && (r.steps[l] == Create(id) || r.steps[l] == HandOut(id)) && Waiting(r.states[l], id)
    && |r.states[l].flights| == f < |r.states[l + 1].flights|
  }

  lemma NewFlight(c: Config, s: Cache, s': Cache, step: Step)
    requires Enabled(c, s, step) && s' == Apply(c, s, step)
    ensures |s.flights| <= |s'.flights| <= |s.flights| + 1
    ensures |s.flights| < |s'.flights| ==> (step.Create? || step.HandOut?) && Waiting(s, step.id)
  {}

  lemma {:induction false} FlightsGrow(c: Config, r: Run, a: nat, b: nat)
    requires ValidRun(c, r) && a <= b < |r.states|
    ensures |r.states[a].flights| <= |r.states[b].flights|
    decreases b
  {
    if a < b {
      FlightsGrow(c, r, a, b - 1);
      assert Linked(c, r, b - 1);
      NewFlight(c, r.states[b - 1], r.states[b], r.steps[b - 1]);
    }
  }

  /** Every flight was made by one step, and has changed nothing but its phase since. */
  lemma {:induction false} FlightOrigin(c: Config, r: Run, i: nat, f: nat) returns (l: nat, id: nat)
    requires ValidRun(c, r) && i < |r.states| && f < |r.states[i].flights|
    ensures l < i && Makes(r, l, id, f)
    ensures r.states[i].flights[f] == r.states[l + 1].flights[f].(phase := r.states[i].flights[f].phase)
    decreases i
  {
    if i > 0 {
      assert Linked(c, r, i - 1);
      NewFlight(c, r.states[i - 1], r.states[i], r.steps[i - 1]);
      if f < |r.states[i - 1].flights| {
        l, id := FlightOrigin(c, r, i - 1, f);
        FlightProgress(c, r, i - 1, f);
      } else {
        l, id := i - 1, r.steps[i - 1].id;
      }
    }
  }

  /** One step makes one flight. */
  lemma MadeOnce(c: Config, r: Run, l: nat, id: nat, m: nat, id': nat, f: nat)
    requires ValidRun(c, r) && Makes(r, l, id, f) && Makes(r, m, id', f)
    ensures l == m && id == id'
  {
    if l < m { FlightsGrow(c, r, l + 1, m); }
    if m < l { FlightsGrow(c, r, m + 1, l); }
  }

  // ---- readings behind a flight's answer ----

  /** Step `q` is the resolver run of flight `f` returning. */
  predicate Returns(r: Run, q: nat, f: nat) {
    q < |r.steps| && r.steps[q].ResolverReturns? && r.steps[q].flight == f
  }

  lemma KeepsCompletion(c: Config, s: Cache, s': Cache, step: Step, f: nat)
    requires Enabled(c, s, step) && s' == Apply(c, s, step) && f < |s'.flights|
    requires s'.flights[f].phase.Resolved? || s'.flights[f].phase.Stored?
    ensures f < |s.flights|
    ensures var phase, phase' := s.flights[f].phase, s'.flights[f].phase;
      if phase.Resolved? || phase.Stored? then phase'.at == phase.at
      else step.ResolverReturns? && step.flight == f && phase'.at == s.now
  {}

  /** The reading a resolved flight carries was taken when its resolver returned. */
  lemma {:induction false} CompletionAt(c: Config, r: Run, i: nat, f: nat) returns (q: nat)
    requires ValidRun(c, r) && i < |r.states| && f < |r.states[i].flights|
    requires r.states[i].flights[f].phase.Resolved? || r.states[i].flights[f].phase.Stored?
    ensures q < i && Returns(r, q, f) && r.states[q].now == r.states[i].flights[f].phase.at
    decreases i
  {
    if i > 0 {
      assert Linked(c, r, i - 1);
      KeepsCompletion(c, r.states[i - 1], r.states[i], r.steps[i - 1], f);
      var phase := r.states[i - 1].flights[f].phase;
      if phase.Resolved? || phase.Stored? { q := CompletionAt(c, r, i - 1, f); } else { q := i - 1; }
    }
  }

  /** Step `m` gives flight `f` its answer: its own finish, or the step that hands it out already finished. */
  predicate Answers(c: Config, r: Run, m: nat, f: nat, a: Answer) {
    && m < |r.steps| < |r.states|
    && if r.steps[m].HandOut? then
         var id := r.steps[m].id;
         && |r.states[m].flights| == f && id in r.states[m].callers && r.states[m].callers[id].Found?
         && a == PeekedAnswer(c.policy, r.states[m].callers[id].entry, r.states[m].callers[id].peekAt, r.states[m].now)
       else
         && r.steps[m] == Finish(f) && f < |r.states[m].flights| && r.states[m].flights[f].phase.Stored?
         && a == FlightAnswer(c.policy, r.states[m].flights[f].phase.entry, r.states[m].flights[f].phase.at)
  }

  lemma BecomesDone(c: Config, s: Cache, s': Cache, step: Step, f: nat)
    requires Enabled(c, s, step) && s' == Apply(c, s, step) && f < |s'.flights| && s'.flights[f].phase.Done?
    requires f < |s.flights| ==> !s.flights[f].phase.Done?
    ensures (step.HandOut? && |s.flights| == f) || step == Finish(f)
  {}

  lemma AnswersAt(c: Config, r: Run, m: nat, f: nat)
    requires ValidRun(c, r) && m < |r.steps| && f < |r.states[m + 1].flights| && r.states[m + 1].flights[f].phase.Done?
    requires f < |r.states[m].flights| ==> !r.states[m].flights[f].phase.Done?
    ensures Answers(c, r, m, f, r.states[m + 1].flights[f].phase.answer)
  {
    assert Linked(c, r, m);
    BecomesDone(c, r.states[m], r.states[m + 1], r.steps[m], f);
  }

  lemma {:induction false} DoneOrigin(c: Config, r: Run, i: nat, f: nat) returns (m: nat)
    requires ValidRun(c, r) && i < |r.states| && f < |r.states[i].flights| && r.states[i].flights[f].phase.Done?
    ensures m < i && Answers(c, r, m, f, r.states[i].flights[f].phase.answer)
    decreases i
  {
    if i > 0 {
      if f < |r.states[i - 1].flights| && r.states[i - 1].flights[f].phase.Done? {
        m := DoneOrigin(c, r, i - 1, f);
        FlightProgress(c, r, i - 1, f);
      } else {
        m := i - 1;
        AnswersAt(c, r, m, f);
      }
    }
  }

  // ---- how a caller came to hold its flight ----

  /** Step `l` gives `id` flight `f`: out of the table, or made for it. */
  predicate Obtains(r: Run, l: nat, id: nat, f: nat) {
    && l < |r.steps| < |r.states|
    && (Makes(r, l, id, f) ||
        (r.steps[l] == LockFlights(id) && exists k :: k in r.states[l].table && r.states[l].table[k] == f))
  }

  lemma ObtainsAt(c: Config, r: Run, l: nat, id: nat)
    requires ValidRun(c, r) && l < |r.steps| && id in r.states[l + 1].callers && r.states[l + 1].callers[id].Holding?
    requires !(id in r.states[l].callers && r.states[l].callers[id].Holding?)
    ensures Obtains(r, l, id, r.states[l + 1].callers[id].flight)
  {
    assert Linked(c, r, l);
    if !StepOf(r.steps[l], id) { OthersLeaveCaller(c, r.states[l], r.states[l + 1], r.steps[l], id); }
  }

  lemma KeepsHolding(c: Config, r: Run, l: nat, id: nat)
    requires ValidRun(c, r) && l < |r.steps| && id in r.states[l + 1].callers && r.states[l + 1].callers[id].Holding?
    requires id in r.states[l].callers && r.states[l].callers[id].Holding?
    ensures r.states[l + 1].callers[id] == r.states[l].callers[id]
  {
    assert Linked(c, r, l);
    if !StepOf(r.steps[l], id) { OthersLeaveCaller(c, r.states[l], r.states[l + 1], r.steps[l], id); }
  }

  lemma {:induction false} HeldOrigin(c: Config, r: Run, i: nat, id: nat) returns (l: nat)
    requires ValidRun(c, r) && i < |r.states| && id in r.states[i].callers && r.states[i].callers[id].Holding?
    ensures l < i && Obtains(r, l, id, r.states[i].callers[id].flight)
    decreases i
  {
    if i > 0 {
      if id in r.states[i - 1].callers && r.states[i - 1].callers[id].Holding? {
        KeepsHolding(c, r, i - 1, id);
        l := HeldOrigin(c, r, i - 1, id);
      } else {
        l := i - 1;
        ObtainsAt(c, r, l, id);
      }
    }
  }

  /** A flight handed out already finished is held by the caller it was made for alone. */
  lemma HandedOutIsOwn(c: Config, r: Run, i: nat, id: nat, m: nat)
    requires ValidRun(c, r) && i < |r.states| && id in r.states[i].callers && r.states[i].callers[id].Holding?
    requires m < i && r.steps[m].HandOut? && |r.states[m].flights| == r.states[i].callers[id].flight
    ensures r.steps[m].id == id
  {
    var f := r.states[i].callers[id].flight;
    assert Linked(c, r, m);
    assert Makes(r, m, r.steps[m].id, f);
    var l := HeldOrigin(c, r, i, id);
    if Makes(r, l, id, f) {
      MadeOnce(c, r, l, id, m, r.steps[m].id, f);
    } else {
      NeverInTable(c, r, m, l, f);
    }
  }

  lemma NeverInTable(c: Config, r: Run, m: nat, l: nat, f: nat)
    requires ValidRun(c, r) && l < |r.states| && m < |r.steps| && r.steps[m].HandOut? && |r.states[m].flights| == f
    ensures forall k :: k in r.states[l].table ==> r.states[l].table[k] != f
  {
    RunInv(c, r, l);
    assert Linked(c, r, m);
    if l <= m { FlightsGrow(c, r, l, m); } else { FlightSurvives(c, r, f, m + 1, l); }
  }

  // ---- how a caller came by its answer ----

  lemma OwnStepAnswers(c: Config, s: Cache, s': Cache, step: Step, id: nat)
    requires Enabled(c, s, step) && s' == Apply(c, s, step) && StepOf(step, id)
    requires id in s'.callers && s'.callers[id].Answered?
    ensures id in s.callers && !s.callers[id].Answered? && AskedKey(s.callers[id]) == s'.callers[id].key
    ensures s'.callers[id].answer.outcome == Good ==> step == TakeEntry(id) || step == Collect(id)
  {}

  lemma AnsweredBy(c: Config, r: Run, p: nat, id: nat)
    requires ValidRun(c, r) && p < |r.steps| && id in r.states[p + 1].callers && r.states[p + 1].callers[id].Answered?
    ensures id in r.states[p].callers && AskedKey(r.states[p].callers[id]) == r.states[p + 1].callers[id].key
    ensures r.states[p].callers[id].Answered? ==> r.states[p + 1].callers[id] == r.states[p].callers[id]
    ensures !r.states[p].callers[id].Answered? && r.states[p + 1].callers[id].answer.outcome == Good ==>
      r.steps[p] == TakeEntry(id) || r.steps[p] == Collect(id)
  {
    assert Linked(c, r, p);
    if StepOf(r.steps[p], id) {
      OwnStepAnswers(c, r.states[p], r.states[p + 1], r.steps[p], id);
    } else {
      OthersLeaveCaller(c, r.states[p], r.states[p + 1], r.steps[p], id);
    }
  }

  /** The step that gave a caller its good answer. */
  lemma {:induction false} AnswerOrigin(c: Config, r: Run, i: nat, id: nat) returns (p: nat)
    requires ValidRun(c, r) && i < |r.states| && id in r.states[i].callers && r.states[i].callers[id].Answered?
    requires r.states[i].callers[id].answer.outcome == Good
    ensures p < i && (r.steps[p] == TakeEntry(id) || r.steps[p] == Collect(id)) && Waiting(r.states[p], id)
    ensures id in r.states[p + 1].callers && r.states[p + 1].callers[id] == r.states[i].callers[id]
    ensures AskedKey(r.states[p].callers[id]) == r.states[i].callers[id].key
    decreases i
  {
    if i > 0 {
      AnsweredBy(c, r, i - 1, id);
      if r.states[i - 1].callers[id].Answered? { p := AnswerOrigin(c, r, i - 1, id); } else { p := i - 1; }
    }
  }

  // ---- the reading behind every good answer ----

  ghost predicate AskedBefore(r: Run, id: nat, k: Key, q: nat)
    requires q < |r.steps|
  {
    exists b :: 0 <= b < q && r.steps[b] == Ask(id, k)
  }

  /** Step `q` is a clock reading of this very call for `k`: its Ask, or, not before that, its re-check. */
  ghost predicate OwnReading(r: Run, id: nat, k: Key, q: nat) {
    && q < |r.steps|
    && (r.steps[q] == Ask(id, k) ||
        ((r.steps[q] == LockFlights(id) || r.steps[q] == HandOut(id)) && AskedBefore(r, id, k, q)))
  }

  ghost predicate Collects(r: Run, p: nat, id: nat, f: nat) {
    && p < |r.steps| < |r.states| && r.steps[p] == Collect(id)
    && id in r.states[p].callers && r.states[p].callers[id].Holding? && r.states[p].callers[id].flight == f
  }

  /** Step `q` is the clock reading at which the resolver run of the flight the call held returned. */
  ghost predicate CompletionReading(r: Run, id: nat, q: nat) {
    exists p, f :: q < p && Collects(r, p, id, f) && Returns(r, q, f)
  }

  /** Step `q` is the Ask, for the same key, of the call that launched the stale-serving refresh the call joined. */
  ghost predicate RefreshReading(r: Run, id: nat, k: Key, q: nat) {
    exists p, f, l, starter :: q < l < p && Collects(r, p, id, f) && Launched(r, l, starter, f) &&
      q < |r.steps| && r.steps[q] == Ask(starter, k)
  }

  predicate Launched(r: Run, l: nat, starter: nat, f: nat) {
    Makes(r, l, starter, f) && r.steps[l] == Create(starter) && r.states[l + 1].flights[f].serveStale
  }

  /** The answer taken from an entry is judged by the reading the call began with. */
  lemma TakenReading(c: Config, r: Run, p: nat, id: nat) returns (q: nat)
    requires ValidRun(c, r) && p < |r.steps| && r.steps[p] == TakeEntry(id) && Waiting(r.states[p], id)
    requires id in r.states[p + 1].callers && r.states[p + 1].callers[id].Answered?
    ensures q < p && OwnReading(r, id, AskedKey(r.states[p].callers[id]), q)
    ensures r.states[q].now == r.states[p + 1].callers[id].answer.readAt
  {
    assert Linked(c, r, p);
    q := OwnAsk(c, r, p, id);
  }

  /** An answer handed out by the re-check is judged by a reading of the re-check. */
  lemma HandedOutReading(c: Config, r: Run, m: nat, id: nat, f: nat, a: Answer) returns (q: nat)
    requires ValidRun(c, r) && m < |r.steps| && r.steps[m] == HandOut(id) && Answers(c, r, m, f, a)
    ensures q <= m && OwnReading(r, id, AskedKey(r.states[m].callers[id]), q) && r.states[q].now == a.readAt
  {
    var caller := r.states[m].callers[id];
    var b := OwnAsk(c, r, m, id);
    if a.readAt == r.states[m].now {
      q := m;
    } else {
      q := OwnLock(c, r, m, id);
      b := OwnAsk(c, r, q, id);
    }
  }

  /** A finished flight's answer is judged when its resolver returned, or by its only holder's re-check. */
  lemma DoneReading(c: Config, r: Run, p: nat, id: nat) returns (q: nat)
    requires ValidRun(c, r) && p < |r.states| && id in r.states[p].callers && r.states[p].callers[id].Holding?
    requires var f := r.states[p].callers[id].flight; f < |r.states[p].flights| && r.states[p].flights[f].phase.Done?
    ensures q < p && r.states[q].now == r.states[p].flights[r.states[p].callers[id].flight].phase.answer.readAt
    ensures OwnReading(r, id, AskedKey(r.states[p].callers[id]), q) || Returns(r, q, r.states[p].callers[id].flight)
  {
    var f := r.states[p].callers[id].flight;
    var m := DoneOrigin(c, r, p, f);
    if r.steps[m].HandOut? {
      HandedOutIsOwn(c, r, p, id, m);
      q := HandedOutReading(c, r, m, id, f, r.states[p].flights[f].phase.answer);
      var b := OwnAsk(c, r, m, id);
      var b' := OwnAsk(c, r, p, id);
      AskedOnce(c, r, b, b', id);
    } else {
      q := CompletionAt(c, r, m, f);
    }
  }

  lemma CallerStays(c: Config, s: Cache, s': Cache, step: Step, id: nat)
    requires Enabled(c, s, step) && s' == Apply(c, s, step) && id in s.callers
    ensures id in s'.callers
  {}

  lemma {:induction false} CallersStay(c: Config, r: Run, a: nat, b: nat, id: nat)
    requires ValidRun(c, r) && a <= b < |r.states| && id in r.states[a].callers
    ensures id in r.states[b].callers
    decreases b
  {
    if a < b {
      CallersStay(c, r, a, b - 1, id);
      assert Linked(c, r, b - 1);
      CallerStays(c, r.states[b - 1], r.states[b], r.steps[b - 1], id);
    }
  }

  /** A call asks once. */
  lemma AskedOnce(c: Config, r: Run, a: nat, b: nat, id: nat)
    requires ValidRun(c, r) && a < |r.steps| && b < |r.steps| && r.steps[a].Ask? && r.steps[b].Ask?
    requires r.steps[a].id == id == r.steps[b].id
    ensures a == b
  {
    assert Linked(c, r, a) && Linked(c, r, b);
    if a < b { CallersStay(c, r, a + 1, b, id); }
    if b < a { CallersStay(c, r, b + 1, a, id); }
  }

  /** A refresh's stale answer is judged by the reading of the call that launched it. */
  lemma LaunchReading(c: Config, r: Run, p: nat, f: nat) returns (q: nat, l: nat, starter: nat)
    requires ValidRun(c, r) && p < |r.states| && f < |r.states[p].flights| && r.states[p].flights[f].serveStale
    ensures q < l < p && Launched(r, l, starter, f)
    ensures r.steps[q] == Ask(starter, r.states[p].flights[f].key) && r.states[q].now == r.states[p].flights[f].readAt
  {
    l, starter := FlightOrigin(c, r, p, f);
    assert Linked(c, r, l);
    q := OwnAsk(c, r, l, starter);
  }

  lemma CollectedReading(c: Config, r: Run, p: nat, id: nat) returns (q: nat)
    requires ValidRun(c, r) && p < |r.steps| && r.steps[p] == Collect(id) && Waiting(r.states[p], id)
    ensures id in r.states[p + 1].callers && r.states[p + 1].callers[id].Answered?
    ensures q < p && r.states[q].now == r.states[p + 1].callers[id].answer.readAt
    ensures var k := AskedKey(r.states[p].callers[id]);
      OwnReading(r, id, k, q) || CompletionReading(r, id, q) || RefreshReading(r, id, k, q)
  {
    assert Linked(c, r, p);
    RunInv(c, r, p);
    var Holding(req, f) := r.states[p].callers[id];
    assert CallerOk(c.policy, r.states[p], r.states[p].callers[id]);
    assert Collects(r, p, id, f);
    if r.states[p].flights[f].phase.Done? {
      q := DoneReading(c, r, p, id);
    } else if req.background {
      q := OwnAsk(c, r, p, id);
    } else {
      var l, starter;
      q, l, starter := LaunchReading(c, r, p, f);
    }
  }

  /** Every good answer is judged by a clock reading of the run: one of the caller's own, that of the
      resolver run it waited for, or that which started the refresh it joined. */
  lemma ServedReading(c: Config, r: Run, i: nat, id: nat) returns (q: nat)
    requires ValidRun(c, r) && i < |r.states| && id in r.states[i].callers && r.states[i].callers[id].Answered?
    requires r.states[i].callers[id].answer.outcome == Good
    ensures var Answered(k, a) := r.states[i].callers[id];
      && q < i && r.states[q].now == a.readAt
      && (OwnReading(r, id, k, q) || CompletionReading(r, id, q) || RefreshReading(r, id, k, q))
  {
    var p := AnswerOrigin(c, r, i, id);
    if r.steps[p] == TakeEntry(id) { q := TakenReading(c, r, p, id); } else { q := CollectedReading(c, r, p, id); }
  }

  /** Every address list served without error came from a completed run for the same key, and at the clock
      reading it was judged by it was not yet expired, or, where the policy serves stale answers, within the
      stale window after its expiry. With the policy "never" no reading is at or after the expiry. */
  lemma ServedAnswerInHorizon(c: Config, r: Run, i: nat, id: nat) returns (t: nat, q: nat)
    requires ValidRun(c, r) && i < |r.states| && id in r.states[i].callers && r.states[i].callers[id].Answered?
    requires r.states[i].callers[id].answer.outcome == Good
    ensures var Answered(k, a) := r.states[i].callers[id];
      var window := if a.result.rcode == Success && c.policy.staleTransient then c.policy.staleWindow else 0;
      && q < i && (OwnReading(r, id, k, q) || CompletionReading(r, id, q) || RefreshReading(r, id, k, q))
      && r.states[q].now < a.result.expiresAt + window
      && (a.result.rcode == Success ==>
            && |a.result.addrs| > 0 && t < i && Produces(c, r.states[t], r.steps[t], k, a.result)
            && r.states[q].now < r.states[t].now + c.policy.maxPositiveTtl + window)
  {
    RunInv(c, r, i);
    var Answered(k, a) := r.states[i].callers[id];
    assert CallerOk(c.policy, r.states[i], r.states[i].callers[id]);
    q := ServedReading(c, r, i, id);
    t := 0;
    if a.result.rcode == Success { t := ProducedByRun(c, r, i, k, a.result); }
  }

  /** A background refresh serves a stale answer only under the policy that allows it, and only if the clock
      reading that the very call which launched it began with lay inside the answer's horizon. */
  lemma RefreshStaleInHorizon(c: Config, r: Run, i: nat, f: nat) returns (q: nat, l: nat, starter: nat)
    requires ValidRun(c, r) && i < |r.states| && f < |r.states[i].flights| && r.states[i].flights[f].serveStale
    ensures var flight := r.states[i].flights[f];
      && c.policy.staleTransient && |flight.stale.addrs| > 0
      && q < l < i && Launched(r, l, starter, f) && r.steps[q] == Ask(starter, flight.key)
      && r.states[q].now < flight.staleUntil == flight.stale.expiresAt + c.policy.staleWindow
  {
    RunInv(c, r, i);
    assert FlightOk(c.policy, r.states[i], r.states[i].flights[f]);
    q, l, starter := LaunchReading(c, r, i, f);
  }
}
