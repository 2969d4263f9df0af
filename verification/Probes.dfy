/** Active-probe results with hysteresis, per tunnel. */
module Probes {
  import Ordering
  import opened Options

  datatype ProbePolicy = ProbePolicy(maxAge: int, failAfter: int, recoverAfter: int)

  datatype Probe = Probe(success: bool, at: int)
  datatype State = State(lastAt: int, passing: bool, failures: int, successes: int)
  datatype Verdict = Unknown | Passing | Failing | Stale

  predicate Eligible(v: Verdict) { v.Unknown? || v.Passing? }

  /** What one result makes of a tunnel's state. */
  function Recorded(p: ProbePolicy, before: Option<State>, r: Probe): State {
    match before
    case None => State(r.at, r.success, if r.success then 0 else 1, if r.success then 1 else 0)
    case Some(s) =>
      var lastAt := if r.at > s.lastAt then r.at else s.lastAt;
      if r.success then
        State(lastAt, s.passing || s.successes + 1 >= p.recoverAfter, 0, s.successes + 1)
      else
        State(lastAt, s.passing && s.failures + 1 < p.failAfter, s.failures + 1, 0)
  }

  /** The state after a further history under one policy. */
  function Continued(p: ProbePolicy, start: Option<State>, h: seq<Probe>): Option<State> {
    if h == [] then start else Some(Recorded(p, Continued(p, start, h[..|h| - 1]), h[|h| - 1]))
  }

  /** The policy each result of a history is judged by; it may change at a reload. */
  type Policies = nat -> ProbePolicy

  function Always(p: ProbePolicy): Policies { (i: nat) => p }

  /** The state after a whole history. */
  function After(ps: Policies, h: seq<Probe>): Option<State> {
    if h == [] then None else Some(Recorded(ps(|h| - 1), After(ps, h[..|h| - 1]), h[|h| - 1]))
  }

  // ---- the closed form ----

  /** How many equal results in a row end at position `i`. */
  function RunLength(h: seq<Probe>, i: nat): (n: nat)
    requires i < |h|
    ensures 1 <= n <= i + 1
    ensures forall j :: i - n < j <= i ==> h[j].success == h[i].success
    ensures n <= i ==> h[i - n].success != h[i].success
  {
    if i == 0 || h[i - 1].success != h[i].success then 1 else 1 + RunLength(h, i - 1)
  }

  /** A result counts when it is the first, or when it ends a long enough run: recover-after successes or fail-after
      failures. */
  predicate Decisive(ps: Policies, h: seq<Probe>, i: nat)
    requires i < |h|
  {
    i == 0 || RunLength(h, i) >= if h[i].success then ps(i).recoverAfter else ps(i).failAfter
  }

  ghost predicate LastDecisive(ps: Policies, h: seq<Probe>, i: nat) {
    i < |h| && Decisive(ps, h, i) && forall j :: i < j < |h| ==> !Decisive(ps, h, j)
  }

  lemma {:induction false} RunLengthPrefix(h: seq<Probe>, n: nat, i: nat)
    requires i < n <= |h|
    ensures RunLength(h[..n], i) == RunLength(h, i)
    decreases i
  {
    if i > 0 { RunLengthPrefix(h, n, i - 1); }
  }

  lemma DecisivePrefix(ps: Policies, h: seq<Probe>, n: nat, i: nat)
    requires i < n <= |h|
    ensures Decisive(ps, h[..n], i) <==> Decisive(ps, h, i)
  {
    RunLengthPrefix(h, n, i);
  }

  lemma {:induction false} FindLastDecisive(ps: Policies, h: seq<Probe>) returns (i: nat)
    requires h != []
    ensures LastDecisive(ps, h, i)
    decreases |h|
  {
    var n := |h| - 1;
    if Decisive(ps, h, n) {
      i := n;
    } else {
      i := FindLastDecisive(ps, h[..n]);
      forall j | 0 <= j < n ensures Decisive(ps, h[..n], j) <==> Decisive(ps, h, j) { DecisivePrefix(ps, h, n, j); }
    }
  }

  ghost predicate IsLatest(h: seq<Probe>, t: int) {
    (exists i :: 0 <= i < |h| && h[i].at == t) && forall i :: 0 <= i < |h| ==> h[i].at <= t
  }

  lemma LatestGrows(h: seq<Probe>, t: int, r: Probe)
    requires IsLatest(h, t)
    ensures IsLatest(h + [r], if r.at > t then r.at else t)
  {
    var i :| 0 <= i < |h| && h[i].at == t;
    assert (h + [r])[i].at == t && (h + [r])[|h|] == r;
  }

  /** The counters are the length of the current run. */
  lemma {:induction false} CountersAreRuns(ps: Policies, h: seq<Probe>)
    requires h != []
    ensures var s, n := After(ps, h).value, |h| - 1;
      && s.successes == (if h[n].success then RunLength(h, n) else 0)
      && s.failures == (if h[n].success then 0 else RunLength(h, n))
    decreases |h|
  {
    var n := |h| - 1;
    if n > 0 {
      CountersAreRuns(ps, h[..n]);
      RunLengthPrefix(h, n, n - 1);
      assert h[..n][n - 1] == h[n - 1];
    } else {
      assert h[..0] == [];
    }
  }

  /** The recorded time is the latest of all, whatever order the results came in. */
  lemma {:induction false} LastAtIsLatest(ps: Policies, h: seq<Probe>)
    requires h != []
    ensures IsLatest(h, After(ps, h).value.lastAt)
    decreases |h|
  {
    var n := |h| - 1;
    var front := h[..n];
    assert h == front + [h[n]];
    if n > 0 {
      LastAtIsLatest(ps, front);
      LatestGrows(front, After(ps, front).value.lastAt, h[n]);
    } else {
      assert front == [];
      assert h[0].at == h[n].at;
    }
  }

  lemma FirstFlag(ps: Policies, r: Probe)
    ensures After(ps, [r]).value.passing == r.success
  {
    assert [r][..0] == [];
  }

  /** A decisive result sets the flag, any other leaves it. */
  lemma StepFlag(ps: Policies, h: seq<Probe>)
    requires |h| >= 2
    ensures var n := |h| - 1;
      After(ps, h).value.passing == if Decisive(ps, h, n) then h[n].success else After(ps, h[..n]).value.passing
  {
    var n := |h| - 1;
    CountersAreRuns(ps, h[..n]);
    RunLengthPrefix(h, n, n - 1);
    assert h[..n][n - 1] == h[n - 1];
  }

  /** Closed form: after any nonempty history the flag is the result at the last decisive position. */
  lemma {:induction false} PassingIsLastDecisive(ps: Policies, h: seq<Probe>, i: nat)
    requires LastDecisive(ps, h, i)
    ensures After(ps, h).value.passing == h[i].success
    decreases |h|
  {
    var n := |h| - 1;
    if n == 0 {
      assert h == [h[0]];
      FirstFlag(ps, h[0]);
    } else {
      StepFlag(ps, h);
      if i < n {
        assert !Decisive(ps, h, n);
        forall j | 0 <= j < n ensures Decisive(ps, h[..n], j) <==> Decisive(ps, h, j) { DecisivePrefix(ps, h, n, j); }
        PassingIsLastDecisive(ps, h[..n], i);
      }
    }
  }

  // ---- flapping ----

  function PassingAt(ps: Policies, h: seq<Probe>, i: nat): bool
    requires i < |h|
  {
    After(ps, h[..i + 1]).value.passing
  }

  predicate Flips(ps: Policies, h: seq<Probe>, i: nat)
    requires i < |h|
  {
    i > 0 && PassingAt(ps, h, i) != PassingAt(ps, h, i - 1)
  }

  function CountFlips(ps: Policies, h: seq<Probe>, n: nat): nat
    requires n <= |h|
  {
    if n == 0 then 0 else CountFlips(ps, h, n - 1) + if Flips(ps, h, n - 1) then 1 else 0
  }

  /** A change happens only at a decisive result, to that result. */
  lemma FlipIsDecisive(ps: Policies, h: seq<Probe>, i: nat)
    requires i < |h| && Flips(ps, h, i)
    ensures Decisive(ps, h, i) && PassingAt(ps, h, i) == h[i].success
  {
    var front := h[..i + 1];
    assert front[..i] == h[..i - 1 + 1];
    StepFlag(ps, front);
    RunLengthPrefix(h, i + 1, i);
  }

  /** The position that set the flag last: the last change, or the first result. */
  ghost predicate SetLast(ps: Policies, h: seq<Probe>, i: nat, n: nat) {
    i < n <= |h| && (i == 0 || Flips(ps, h, i)) && forall j :: i < j < n ==> !Flips(ps, h, j)
  }

  lemma {:induction false} FlagSince(ps: Policies, h: seq<Probe>, i: nat, n: nat)
    requires SetLast(ps, h, i, n)
    ensures PassingAt(ps, h, n - 1) == h[i].success
    decreases n
  {
    if n == i + 1 {
      if i > 0 {
        FlipIsDecisive(ps, h, i);
      } else {
        assert h[..1] == [h[0]];
        FirstFlag(ps, h[0]);
      }
    } else {
      FlagSince(ps, h, i, n - 1);
      assert !Flips(ps, h, n - 1);
    }
  }

  /** Between two changes of the flag, across reloads or not, there are at least as many results as the
      threshold of the second. */
  lemma FlipsAreApart(ps: Policies, h: seq<Probe>, i: nat, j: nat)
    requires SetLast(ps, h, i, j) && j < |h| && Flips(ps, h, j)
    ensures h[j].success != h[i].success && j - i >= if h[j].success then ps(j).recoverAfter else ps(j).failAfter
  {
    FlagSince(ps, h, i, j);
    FlipIsDecisive(ps, h, j);
    assert h[j].success != h[i].success;
  }

  lemma OneMore(c: int, m: int, last: int, n: int)
    requires c * m <= last && last + m <= n
    ensures (c + 1) * m <= n
  {}

  /** No policy of the history has a threshold below `m`. */
  ghost predicate AtLeast(ps: Policies, n: nat, m: int) {
    forall i :: 0 <= i < n ==> ps(i).failAfter >= m && ps(i).recoverAfter >= m
  }

  lemma {:induction false} FlipBudget(ps: Policies, h: seq<Probe>, n: nat, m: int) returns (last: nat)
    requires 0 < n <= |h| && AtLeast(ps, |h|, m)
    ensures SetLast(ps, h, last, n)
    ensures CountFlips(ps, h, n) * m <= last
    decreases n
  {
    if n == 1 {
      last := 0;
      assert CountFlips(ps, h, 1) == CountFlips(ps, h, 0) == 0;
    } else {
      last := FlipBudget(ps, h, n - 1, m);
      if Flips(ps, h, n - 1) {
        FlipsAreApart(ps, h, last, n - 1);
        assert ps(n - 1).failAfter >= m && ps(n - 1).recoverAfter >= m;
        OneMore(CountFlips(ps, h, n - 1), m, last, n - 1);
        last := n - 1;
      }
    }
  }

  /** Bounded flapping: n results change the flag at most (n - 1) / m times, where m is the smallest fail-after
      or recover-after of the policies they were judged by. */
  lemma BoundedFlapping(ps: Policies, h: seq<Probe>, m: int)
    requires h != [] && m > 0 && AtLeast(ps, |h|, m)
    ensures CountFlips(ps, h, |h|) <= (|h| - 1) / m
  {
    var last := FlipBudget(ps, h, |h|, m);
    DivGE(CountFlips(ps, h, |h|), m, |h| - 1);
  }

  lemma DivGE(c: int, m: int, n: int)
    requires m > 0 && c * m <= n
    ensures c <= n / m
  {
    var d := n / m;
    assert n < m * d + m;
    assert c >= d + 1 ==> c * m >= (d + 1) * m == m * d + m;
  }

  // ---- reload ----

  /** A stretch of the daemon's life between two reloads: its policy and the results it saw. */
  datatype Epoch = Epoch(policy: ProbePolicy, results: seq<Probe>)

  /** The state handed on from epoch to epoch. */
  function Inherited(epochs: seq<Epoch>): Option<State> {
    if epochs == [] then None
    else Continued(epochs[|epochs| - 1].policy, Inherited(epochs[..|epochs| - 1]), epochs[|epochs| - 1].results)
  }

  function AllResults(epochs: seq<Epoch>): seq<Probe> {
    if epochs == [] then [] else AllResults(epochs[..|epochs| - 1]) + epochs[|epochs| - 1].results
  }

  /** `ps` up to position `n`, then `p`. */
  function Until(ps: Policies, n: nat, p: ProbePolicy): Policies { (i: nat) => if i < n then ps(i) else p }

  /** The policy in force when each result came. */
  function InForce(epochs: seq<Epoch>): Policies {
    if epochs == [] then Always(ProbePolicy(0, 0, 0))
    else
      var front := epochs[..|epochs| - 1];
      Until(InForce(front), |AllResults(front)|, epochs[|epochs| - 1].policy)
  }

  lemma {:induction false} AfterLocal(ps: Policies, qs: Policies, h: seq<Probe>)
    requires forall i :: 0 <= i < |h| ==> ps(i) == qs(i)
    ensures After(ps, h) == After(qs, h)
    decreases |h|
  {
    if h != [] { AfterLocal(ps, qs, h[..|h| - 1]); }
  }

  /** Recording on is recording the whole history, each result judged by the policy of its time. */
  lemma {:induction false} ContinuedIsAfter(ps: Policies, p: ProbePolicy, h1: seq<Probe>, h2: seq<Probe>)
    ensures Continued(p, After(ps, h1), h2) == After(Until(ps, |h1|, p), h1 + h2)
    decreases |h2|
  {
    if h2 == [] {
      assert h1 + h2 == h1;
      AfterLocal(ps, Until(ps, |h1|, p), h1);
    } else {
      var n := |h2| - 1;
      ContinuedIsAfter(ps, p, h1, h2[..n]);
      assert (h1 + h2)[..|h1 + h2| - 1] == h1 + h2[..n];
    }
  }

  lemma {:induction false} ContinuedFromNothing(p: ProbePolicy, h: seq<Probe>)
    ensures Continued(p, None, h) == After(Always(p), h)
    decreases |h|
  {
    if h != [] { ContinuedFromNothing(p, h[..|h| - 1]); }
  }

  /** Any number of reloads, each handing the state on and each free to change the thresholds, leaves the state
      of one uninterrupted history in which every result is judged by the policy in force when it came. */
  lemma {:induction false} ReloadsKeepHistory(epochs: seq<Epoch>)
    ensures Inherited(epochs) == After(InForce(epochs), AllResults(epochs))
    decreases |epochs|
  {
    if epochs != [] {
      var front, last := epochs[..|epochs| - 1], epochs[|epochs| - 1];
      ReloadsKeepHistory(front);
      ContinuedIsAfter(InForce(front), last.policy, AllResults(front), last.results);
    }
  }

  /** Closed form across reloads: the flag is the result at the last position that is decisive under the policy
      in force at it, runs counting across reloads; and the recorded time is the latest of all epochs. */
  lemma PassingAcrossReloads(epochs: seq<Epoch>, i: nat)
    requires LastDecisive(InForce(epochs), AllResults(epochs), i)
    ensures Inherited(epochs).Some? && Inherited(epochs).value.passing == AllResults(epochs)[i].success
    ensures IsLatest(AllResults(epochs), Inherited(epochs).value.lastAt)
  {
    ReloadsKeepHistory(epochs);
    PassingIsLastDecisive(InForce(epochs), AllResults(epochs), i);
    LastAtIsLatest(InForce(epochs), AllResults(epochs));
  }

  lemma {:induction false} SamePolicyInForce(epochs: seq<Epoch>, p: ProbePolicy)
    requires forall i :: 0 <= i < |epochs| ==> epochs[i].policy == p
    ensures forall i :: 0 <= i < |AllResults(epochs)| ==> InForce(epochs)(i) == p
    decreases |epochs|
  {
    if epochs != [] { SamePolicyInForce(epochs[..|epochs| - 1], p); }
  }

  lemma SamePolicyThroughout(epochs: seq<Epoch>, p: ProbePolicy)
    requires forall i :: 0 <= i < |epochs| ==> epochs[i].policy == p
    ensures Inherited(epochs) == After(Always(p), AllResults(epochs))
  {
    ReloadsKeepHistory(epochs);
    SamePolicyInForce(epochs, p);
    AfterLocal(InForce(epochs), Always(p), AllResults(epochs));
  }

  function VerdictOf(p: ProbePolicy, s: Option<State>, now: int): Verdict {
    match s
    case None => Unknown
    case Some(st) => if now - st.lastAt > p.maxAge then Stale else if st.passing then Passing else Failing
  }

  /** The verdict in terms of the results: none, too old, or what the last decisive one says. */
  lemma VerdictMeans(ps: Policies, p: ProbePolicy, h: seq<Probe>, i: nat, latest: int, now: int)
    requires LastDecisive(ps, h, i) && IsLatest(h, latest)
    ensures VerdictOf(p, After(ps, h), now) ==
      if now - latest > p.maxAge then Stale else if h[i].success then Passing else Failing
    ensures VerdictOf(p, None, now) == Unknown
  {
    PassingIsLastDecisive(ps, h, i);
    LastAtIsLatest(ps, h);
  }

  /** A tunnel with results is eligible exactly while its latest result is young enough and its last decisive
      result was a success. */
  lemma EligibleMeans(ps: Policies, p: ProbePolicy, h: seq<Probe>, i: nat, latest: int, now: int)
    requires LastDecisive(ps, h, i) && IsLatest(h, latest)
    ensures Eligible(VerdictOf(p, After(ps, h), now)) <==> now - latest <= p.maxAge && h[i].success
  {
    VerdictMeans(ps, p, h, i, latest, now);
  }

  type States = map<string, State>

  function Lookup(states: States, tunnel: string): Option<State> {
    if tunnel in states then Some(states[tunnel]) else None
  }

  /** A tunnel's own state where there is one, else the offered state. */
  function Preferred(own: States, offered: Option<State>, tunnel: string): Option<State> {
    if tunnel in own then Some(own[tunnel]) else offered
  }

  /** A result of some tunnel; results of all tunnels arrive interleaved. */
  datatype Event = Event(tunnel: string, probe: Probe)

  function Own(events: seq<Event>, tunnel: string): seq<Probe> {
    if events == [] then []
    else
      var front, last := Own(events[..|events| - 1], tunnel), events[|events| - 1];
      if last.tunnel == tunnel then front + [last.probe] else front
  }

  class ProbeTracker {
    const policy: ProbePolicy
    var byTunnel: States

    constructor (policy: ProbePolicy)
      ensures this.policy == policy && byTunnel == map[]
    {
      this.policy, byTunnel := policy, map[];
    }

    method Record(tunnel: string, success: bool, at: int)
      modifies this
      ensures byTunnel == old(byTunnel)[tunnel := Recorded(policy, Lookup(old(byTunnel), tunnel), Probe(success, at))]
    {
      if tunnel !in byTunnel {
        byTunnel := byTunnel[tunnel := State(at, success, if success then 0 else 1, if success then 1 else 0)];
        return;
      }
      var State(lastAt, passing, failures, successes) := byTunnel[tunnel];
      if at > lastAt { lastAt := at; }
      if success {
        successes, failures := successes + 1, 0;
        if successes >= policy.recoverAfter { passing := true; }
      } else {
        failures, successes := failures + 1, 0;
        if failures >= policy.failAfter { passing := false; }
      }
      byTunnel := byTunnel[tunnel := State(lastAt, passing, failures, successes)];
    }

    /** Records an interleaved history: each tunnel's state advances by its own results only. */
    method RecordAll(events: seq<Event>)
      modifies this
      ensures forall t :: Lookup(byTunnel, t) == Continued(policy, Lookup(old(byTunnel), t), Own(events, t))
    {
      for i := 0 to |events|
        invariant forall t :: Lookup(byTunnel, t) == Continued(policy, Lookup(old(byTunnel), t), Own(events[..i], t))
      {
        var Event(tunnel, probe) := events[i];
        assert events[..i + 1][..i] == events[..i] && events[..i + 1][i] == events[i];
        ghost var own := Own(events[..i], tunnel);
        assert (own + [probe])[..|own|] == own;
        Record(tunnel, probe.success, probe.at);
      }
      assert events[..|events|] == events;
    }

    method Snapshot(tunnels: seq<string>) returns (states: States)
      ensures forall t :: Lookup(states, t) == if t in tunnels then Lookup(byTunnel, t) else None
    {
      states := map[];
      for i := 0 to |tunnels|
        invariant forall t :: Lookup(states, t) == if t in tunnels[..i] then Lookup(byTunnel, t) else None
      {
        assert tunnels[..i + 1] == tunnels[..i] + [tunnels[i]];
        if tunnels[i] in byTunnel { states := states[tunnels[i] := byTunnel[tunnels[i]]]; }
      }
      assert tunnels[..|tunnels|] == tunnels;
    }

    method Restore(states: States)
      modifies this
      ensures forall t :: Lookup(byTunnel, t) == Preferred(old(byTunnel), Lookup(states, t), t)
    {
      var todo := states.Keys;
      while todo != {}
        invariant todo <= states.Keys
        invariant forall t :: t in todo ==> Lookup(byTunnel, t) == Preferred(old(byTunnel), None, t)
        invariant forall t :: t !in todo ==> Lookup(byTunnel, t) == Preferred(old(byTunnel), Lookup(states, t), t)
        decreases todo
      {
        var t :| t in todo;
        assert Lookup(byTunnel, t) == Preferred(old(byTunnel), None, t);
        if t !in byTunnel { byTunnel := byTunnel[t := states[t]]; }
        todo := todo - {t};
      }
    }

    method Verdict(tunnel: string, now: int) returns (v: Verdict)
      ensures v == VerdictOf(policy, Lookup(byTunnel, tunnel), now)
    {
      if tunnel !in byTunnel { return Unknown; }
      var s := byTunnel[tunnel];
      if now - s.lastAt > policy.maxAge { return Stale; }
      return if s.passing then Passing else Failing;
    }

    /** A tracker built at reload takes over the listed tunnels it has no result for yet. */
    method InheritProbes(prev: ProbeTracker, tunnels: seq<string>)
      modifies this
      ensures forall t :: t in tunnels ==>
        Lookup(byTunnel, t) == Preferred(old(byTunnel), Lookup(old(prev.byTunnel), t), t)
      ensures forall t :: t !in tunnels ==> Lookup(byTunnel, t) == Lookup(old(byTunnel), t)
    {
      var states := prev.Snapshot(tunnels);
      Restore(states);
    }
  }

  /** A reload: a tracker saw `before` under `p1`; the one that replaces it inherits the listed tunnels and sees
      `after` under `p2`. The new state of an inherited tunnel is that of one uninterrupted history, the
      new thresholds applying from the reload on; any other tunnel starts afresh. */
  method Reload(p1: ProbePolicy, before: seq<Event>, tunnels: seq<string>, p2: ProbePolicy, after: seq<Event>)
    returns (next: ProbeTracker)
    ensures next.policy == p2
    ensures forall t :: t in tunnels ==>
      Lookup(next.byTunnel, t) == After(Until(Always(p1), |Own(before, t)|, p2), Own(before, t) + Own(after, t))
    ensures forall t :: t !in tunnels ==> Lookup(next.byTunnel, t) == After(Always(p2), Own(after, t))
  {
    var prev := new ProbeTracker(p1);
    prev.RecordAll(before);
    next := new ProbeTracker(p2);
    next.InheritProbes(prev, tunnels);
    next.RecordAll(after);
    forall t ensures t in tunnels ==>
      Lookup(next.byTunnel, t) == After(Until(Always(p1), |Own(before, t)|, p2), Own(before, t) + Own(after, t))
    {
      ContinuedFromNothing(p1, Own(before, t));
      ContinuedIsAfter(Always(p1), p2, Own(before, t), Own(after, t));
    }
    forall t ensures Continued(p2, None, Own(after, t)) == After(Always(p2), Own(after, t)) {
      ContinuedFromNothing(p2, Own(after, t));
    }
  }

  // ---- any number of reloads ----

  /** One configuration of the daemon: its policy, the tunnels its tracker inherits, and the results it sees. */
  datatype Phase = Phase(policy: ProbePolicy, tunnels: seq<string>, events: seq<Event>)

  /** A tunnel's history since the last reload that did not list it. */
  function EpochsOf(phases: seq<Phase>, t: string): seq<Epoch> {
    if phases == [] then []
    else
      var front, last := phases[..|phases| - 1], phases[|phases| - 1];
      (if t in last.tunnels then EpochsOf(front, t) else []) + [Epoch(last.policy, Own(last.events, t))]
  }

  /** What a phase makes of the state before it: only listed tunnels are inherited. */
  function HandedOn(before: Option<State>, p: Phase, t: string): Option<State> {
    Continued(p.policy, if t in p.tunnels then before else None, Own(p.events, t))
  }

  lemma PhaseStep(phases: seq<Phase>, n: nat, t: string)
    requires n < |phases|
    ensures Inherited(EpochsOf(phases[..n + 1], t)) == HandedOn(Inherited(EpochsOf(phases[..n], t)), phases[n], t)
  {
    var p, upTo := phases[n], phases[..n + 1];
    assert upTo[..|upTo| - 1] == phases[..n] && upTo[|upTo| - 1] == p;
    var kept := if t in p.tunnels then EpochsOf(phases[..n], t) else [];
    var epochs := kept + [Epoch(p.policy, Own(p.events, t))];
    assert EpochsOf(upTo, t) == epochs && epochs[..|epochs| - 1] == kept;
  }

  /** A reload: a new tracker that inherits the listed tunnels of the running one, if there is one, and then
      records what it sees. */
  method NextPhase(prev: ProbeTracker?, p: Phase) returns (next: ProbeTracker)
    ensures next.policy == p.policy
    ensures prev == null ==> forall t :: Lookup(next.byTunnel, t) == HandedOn(None, p, t)
    ensures prev != null ==> forall t :: Lookup(next.byTunnel, t) == HandedOn(Lookup(prev.byTunnel, t), p, t)
  {
    next := new ProbeTracker(p.policy);
    if prev != null { next.InheritProbes(prev, p.tunnels); }
    next.RecordAll(p.events);
  }

  /** The closed form of a tracker's state for `t`: none without results; otherwise the time of the latest result,
      and the result at the last position that is decisive under the policy in force at it. */
  ghost predicate ClosedForm(phases: seq<Phase>, t: string, s: Option<State>) {
    var epochs := EpochsOf(phases, t);
    var h := AllResults(epochs);
    if h == [] then s == None
    else s.Some? && IsLatest(h, s.value.lastAt) && SetByLastDecisive(InForce(epochs), h, s.value.passing)
  }

  ghost predicate SetByLastDecisive(ps: Policies, h: seq<Probe>, passing: bool) {
    exists i: nat :: LastDecisive(ps, h, i) && passing == h[i].success
  }

  lemma InheritedClosedForm(phases: seq<Phase>, t: string)
    ensures ClosedForm(phases, t, Inherited(EpochsOf(phases, t)))
  {
    var epochs := EpochsOf(phases, t);
    ReloadsKeepHistory(epochs);
    if AllResults(epochs) != [] {
      var i := FindLastDecisive(InForce(epochs), AllResults(epochs));
      PassingAcrossReloads(epochs, i);
    }
  }

  lemma {:induction false} EpochPolicies(phases: seq<Phase>, t: string, p: ProbePolicy)
    requires forall i :: 0 <= i < |phases| ==> phases[i].policy == p
    ensures forall i :: 0 <= i < |EpochsOf(phases, t)| ==> EpochsOf(phases, t)[i].policy == p
    decreases |phases|
  {
    if phases != [] { EpochPolicies(phases[..|phases| - 1], t, p); }
  }

  function LastPolicy(phases: seq<Phase>): ProbePolicy
    requires phases != []
  {
    phases[|phases| - 1].policy
  }

  ghost predicate SamePolicy(phases: seq<Phase>, p: ProbePolicy) {
    forall i :: 0 <= i < |phases| ==> phases[i].policy == p
  }

  /** The trackers of a whole life of the daemon, each inheriting from the one before. For every tunnel the last
      one's state has the closed form of the tunnel's history since the last reload that did not list it, runs
      counting across reloads and each result judged by the policy of its time; and where the thresholds never
      change it is the state of that history recorded without any reload. */
  method RunPhases(phases: seq<Phase>) returns (next: ProbeTracker)
    requires phases != []
    ensures next.policy == LastPolicy(phases)
    ensures forall t :: Lookup(next.byTunnel, t) == Inherited(EpochsOf(phases, t))
    ensures forall t :: ClosedForm(phases, t, Lookup(next.byTunnel, t))
    ensures forall p, t :: SamePolicy(phases, p) ==>
      Lookup(next.byTunnel, t) == After(Always(p), AllResults(EpochsOf(phases, t)))
  {
    next := NextPhase(null, phases[0]);
    forall t ensures Lookup(next.byTunnel, t) == Inherited(EpochsOf(phases[..1], t)) { PhaseStep(phases, 0, t); }
    for n := 1 to |phases|
      invariant next.policy == phases[n - 1].policy
      invariant forall t :: Lookup(next.byTunnel, t) == Inherited(EpochsOf(phases[..n], t))
    {
      var upTo := phases[..n + 1];
      next := NextPhase(next, phases[n]);
      forall t ensures Lookup(next.byTunnel, t) == Inherited(EpochsOf(upTo, t)) { PhaseStep(phases, n, t); }
    }
    assert phases[..|phases|] == phases;
    forall t ensures ClosedForm(phases, t, Inherited(EpochsOf(phases, t))) { InheritedClosedForm(phases, t); }
    forall p, t | SamePolicy(phases, p)
      ensures Inherited(EpochsOf(phases, t)) == After(Always(p), AllResults(EpochsOf(phases, t)))
    {
      EpochPolicies(phases, t, p);
      SamePolicyThroughout(EpochsOf(phases, t), p);
    }
  }
}
