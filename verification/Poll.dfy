/** One poll of the health monitor, from device queries and probe histories to the orders it publishes. */
module Poll {
  import opened Options
  import opened Ordering
  import opened GroupOrder
  import Probes

  /** The answer of a device query: a failure, no peer, or the peer's last handshake if there was one. */
  datatype Device = QueryFailed | NoPeer | Peer(lastHandshake: Option<int>)

  datatype Signal = SessionFailed | SessionIdleUnknown | SessionRecent

  /** What one query says of a tunnel, judged by its threshold; an age below zero counts as zero. */
  function SignalOf(d: Device, threshold: int, now: int): Signal {
    match d
    case QueryFailed => SessionFailed
    case NoPeer => SessionFailed
    case Peer(None) => SessionIdleUnknown
    case Peer(Some(at)) => if Max(now - at, 0) < threshold then SessionRecent else SessionIdleUnknown
  }

  /** The handshake is young enough for every group that uses the tunnel, and some group does. */
  ghost predicate RecentForAll(groups: seq<Group>, devices: string -> Device, now: int, tunnel: string) {
    && (exists g :: g in groups && Uses(g.members, tunnel))
    && devices(tunnel).Peer? && devices(tunnel).lastHandshake.Some?
    && forall g :: g in groups && Uses(g.members, tunnel) ==>
         Max(now - devices(tunnel).lastHandshake.value, 0) < g.healthyAfter
  }

  ghost function Recent(groups: seq<Group>, devices: string -> Device, now: int): string -> bool {
    t => RecentForAll(groups, devices, now, t)
  }

  /** `v` is what a poll at `now` knows. */
  ghost predicate Sees(v: View, groups: seq<Group>, devices: string -> Device, verdicts: string -> Probes.Verdict,
                       now: int)
  {
    && (forall t :: v.recent(t) <==> RecentForAll(groups, devices, now, t))
    && (forall t :: v.verdict(t) == verdicts(t))
  }

  lemma SmallestDecides(groups: seq<Group>, thresholds: map<string, int>, devices: string -> Device, now: int,
                        t: string)
    requires ThresholdOf(groups, thresholds, t)
    ensures (t in thresholds && SignalOf(devices(t), thresholds[t], now) == SessionRecent) <==>
      RecentForAll(groups, devices, now, t)
  {
    if t in thresholds {
      var g :| g in groups && Uses(g.members, t) && g.healthyAfter == thresholds[t];
    }
  }

  class Monitor {
    const groups: seq<Group>
    const probes: Probes.ProbeTracker?
    var active: seq<int>
    var order: seq<seq<nat>>

    ghost predicate Valid()
      reads this
    {
      && (forall i :: 0 <= i < |groups| ==> GroupOk(groups[i]))
      && |active| == |order| == |groups|
    }

    constructor (groups: seq<Group>, probes: Probes.ProbeTracker?)
      requires forall i :: 0 <= i < |groups| ==> GroupOk(groups[i])
      ensures Valid() && this.groups == groups && this.probes == probes
      ensures forall i :: 0 <= i < |groups| ==>
        active[i] == ToInt32(groups[i].members[0].mark) && order[i] == MarksOf(groups[i].members)
    {
      this.groups, this.probes := groups, probes;
      active := seq(|groups|, i requires 0 <= i < |groups| => ToInt32(groups[i].members[0].mark));
      order := seq(|groups|, i requires 0 <= i < |groups| => MarksOf(groups[i].members));
    }

    /** The verdict of a tunnel; without a probe policy every tunnel is unknown. */
    function VerdictAt(now: int): string -> Probes.Verdict
      reads this, probes
    {
      if probes == null then t => Probes.Unknown
      else
        var policy, states := probes.policy, probes.byTunnel;
        t => Probes.VerdictOf(policy, Probes.Lookup(states, t), now)
    }

    /** Queries every used tunnel once and keeps its signal. */
    method QueryAll(thresholds: map<string, int>, devices: string -> Device, now: int)
      returns (signals: map<string, Signal>)
      ensures signals.Keys == thresholds.Keys
      ensures forall t :: t in signals ==> signals[t] == SignalOf(devices(t), thresholds[t], now)
    {
      signals := map[];
      var todo := thresholds.Keys;
      while todo != {}
        invariant todo <= thresholds.Keys && signals.Keys == thresholds.Keys - todo
        invariant forall t :: t in signals ==> signals[t] == SignalOf(devices(t), thresholds[t], now)
        decreases todo
      {
        var t :| t in todo;
        signals := signals[t := SignalOf(devices(t), thresholds[t], now)];
        todo := todo - {t};
      }
    }

    /** What the poll knows, put together from the thresholds, the queries and the probe tracker. */
    method Look(devices: string -> Device, now: int) returns (v: View)
      requires Valid()
      ensures Sees(v, groups, devices, VerdictAt(now), now)
    {
      var thresholds := Thresholds(groups);
      var signals := QueryAll(thresholds, devices, now);
      v := View(t => t in signals && signals[t] == SessionRecent, VerdictAt(now));
      forall t ensures v.recent(t) <==> RecentForAll(groups, devices, now, t) {
        assert ThresholdOf(groups, thresholds, t);
        SmallestDecides(groups, thresholds, devices, now, t);
      }
    }

    /** One poll: every group publishes the selection for what the poll saw. */
    method Poll(devices: string -> Device, now: int) returns (ghost v: View, ghost choices: seq<Choice>)
      requires Valid()
      modifies this
      ensures Valid() && Sees(v, groups, devices, old(VerdictAt(now)), now) && |choices| == |groups|
      ensures forall i :: 0 <= i < |groups| ==> Publishes(groups[i], v, choices[i], active[i], order[i])
    {
      var view := Look(devices, now);
      v, choices := view, [];
      for k := 0 to |groups|
        invariant Valid() && |choices| == k
        invariant forall i :: 0 <= i < k ==> Publishes(groups[i], v, choices[i], active[i], order[i])
      {
        assert groups[k] in groups;
        var c := SelectMember(groups[k].members, view);
        ChoiceFits(groups[k].members, view, c);
        active, order := active[k := ToInt32(c.mark)], order[k := c.order];
        choices := choices + [c];
      }
    }
  }

  predicate FitMarks(members: seq<Member>) { forall i :: 0 <= i < |members| ==> members[i].mark < 0x1_0000_0000 }

  /** The groups the monitor accepts; a mark is a 32-bit value. */
  predicate GroupOk(g: Group) {
    |g.members| > 0 && g.healthyAfter > 0 && FitMarks(g.members)
  }

  /** The group's cells hold the selection `c` made for what `v` shows. */
  ghost predicate Publishes(g: Group, v: View, c: Choice, active: int, order: seq<nat>) {
    && |g.members| > 0 && Selected(g.members, v, c) && c.mark < 0x1_0000_0000
    && active == ToInt32(c.mark) && order == c.order
  }

  lemma ChoiceFits(members: seq<Member>, v: View, c: Choice)
    requires |members| > 0 && Selected(members, v, c) && FitMarks(members)
    ensures c.mark < 0x1_0000_0000
  {
    var i := ChosenIsFirst(members, v, c);
  }

  /** A tunnel's probes leave it eligible: it has no result, or its latest result is young enough and its last
      decisive one was a success. */
  ghost predicate ProbesAllow(p: Probes.ProbePolicy, ps: Probes.Policies, h: seq<Probes.Probe>, now: int) {
    h != [] ==>
      && (exists latest :: Probes.IsLatest(h, latest) && now - latest <= p.maxAge)
      && (exists i: nat :: Probes.LastDecisive(ps, h, i) && h[i].success)
  }

  lemma EligibleIsAllowed(p: Probes.ProbePolicy, ps: Probes.Policies, h: seq<Probes.Probe>, now: int)
    ensures Probes.Eligible(Probes.VerdictOf(p, Probes.After(ps, h), now)) <==> ProbesAllow(p, ps, h, now)
  {
    if h != [] {
      var i := Probes.FindLastDecisive(ps, h);
      Probes.LastAtIsLatest(ps, h);
      var latest := Probes.After(ps, h).value.lastAt;
      Probes.EligibleMeans(ps, p, h, i, latest, now);
      forall j | Probes.LastDecisive(ps, h, j) ensures j == i {}
    }
  }

  // ---- from recorded results to the stored order ----

  /** A member carries traffic at `now`, in terms of the handshakes and of all results recorded over the phases of
      the daemon's life. */
  ghost predicate CarriesAfter(groups: seq<Group>, phases: seq<Probes.Phase>, devices: string -> Device, now: int,
                               m: Member)
    requires phases != []
  {
    var epochs := Probes.EpochsOf(phases, m.tunnel);
    && RecentForAll(groups, devices, now, m.tunnel)
    && ProbesAllow(Probes.LastPolicy(phases), Probes.InForce(epochs), Probes.AllResults(epochs), now)
  }

  ghost predicate MarkOf(members: seq<Member>, mark: nat) { exists a :: 0 <= a < |members| && members[a].mark == mark }

  ghost predicate Precedes(members: seq<Member>, mark: nat, mark': nat) {
    exists a, b :: 0 <= a < b < |members| && members[a].mark == mark && members[b].mark == mark'
  }

  /** Only marks of members, earlier members first. */
  ghost predicate KeepsPreference(members: seq<Member>, order: seq<nat>) {
    && (forall i :: 0 <= i < |order| ==> MarkOf(members, order[i]))
    && (forall i, j :: 0 <= i < j < |order| ==> Precedes(members, order[i], order[j]))
  }

  lemma PreferenceKept(members: seq<Member>, v: View, order: seq<nat>)
    requires InPreference(members, v, order)
    ensures KeepsPreference(members, order)
  {
    forall i | 0 <= i < |order| ensures MarkOf(members, order[i]) {
      var a: nat :| Carrying(members, v, order[i], a);
    }
    forall i, j | 0 <= i < j < |order| ensures Precedes(members, order[i], order[j]) {
      assert Before(members, v, order[i], order[j]);
      var a: nat, b: nat :| a < b && Carrying(members, v, order[i], a) && Carrying(members, v, order[j], b);
    }
  }

  /** What is stored for a group: its active cell holds the head of its order, which is never empty and repeats no
      mark; if some member carries traffic the order is exactly the marks of those that do, in preference order,
      else all marks, led by the first member whose handshake is young enough, or the first member. */
  ghost predicate Stored(groups: seq<Group>, phases: seq<Probes.Phase>, devices: string -> Device, now: int,
                         g: Group, active: int, order: seq<nat>)
    requires phases != []
  {
    && |order| > 0 && Distinct(order) && order[0] < 0x1_0000_0000 && active == ToInt32(order[0])
    && if exists m :: m in g.members && CarriesAfter(groups, phases, devices, now, m)
       then KeepsPreference(g.members, order) &&
         forall m :: m in g.members ==> (m.mark in order <==> CarriesAfter(groups, phases, devices, now, m))
       else multiset(order) == multiset(MarksOf(g.members)) && FailsOpen(g.members, Recent(groups, devices, now), order)
  }

  lemma PublishesStored(groups: seq<Group>, phases: seq<Probes.Phase>, devices: string -> Device,
                        verdicts: string -> Probes.Verdict, now: int, v: View, g: Group, c: Choice, active: int,
                        order: seq<nat>)
    requires phases != [] && g in groups && DistinctMarks(g.members) && Publishes(g, v, c, active, order)
    requires Sees(v, groups, devices, verdicts, now)
    requires forall t :: verdicts(t) == VerdictAfter(phases, t, now)
    ensures Stored(groups, phases, devices, now, g, active, order)
  {
    PublishedOrder(g.members, v, c);
    if c.ready {
      PreferenceKept(g.members, v, c.order);
    } else {
      OpensAlike(g.members, v.recent, groups, devices, now, c.order);
    }
    forall m | m in g.members ensures CanCarry(v, m) <==> CarriesAfter(groups, phases, devices, now, m) {
      CarriesAlike(groups, phases, devices, verdicts, now, v, m);
    }
  }

  lemma OpensAlike(members: seq<Member>, recent: string -> bool, groups: seq<Group>, devices: string -> Device,
                   now: int, order: seq<nat>)
    requires FailsOpen(members, recent, order)
    requires forall t :: recent(t) <==> RecentForAll(groups, devices, now, t)
    ensures FailsOpen(members, Recent(groups, devices, now), order)
  {
    var recent' := Recent(groups, devices, now);
    forall i | 0 <= i < |members| && FirstWith(members, recent', i) ensures LedBy(order, members, i) {
      assert FirstWith(members, recent, i);
    }
  }

  lemma CarriesAlike(groups: seq<Group>, phases: seq<Probes.Phase>, devices: string -> Device,
                     verdicts: string -> Probes.Verdict, now: int, v: View, m: Member)
    requires phases != [] && Sees(v, groups, devices, verdicts, now)
    requires forall t :: verdicts(t) == VerdictAfter(phases, t, now)
    ensures CanCarry(v, m) <==> CarriesAfter(groups, phases, devices, now, m)
  {
    var epochs := Probes.EpochsOf(phases, m.tunnel);
    assert v.verdict(m.tunnel) == verdicts(m.tunnel) == VerdictAfter(phases, m.tunnel, now);
    Probes.ReloadsKeepHistory(epochs);
    EligibleIsAllowed(Probes.LastPolicy(phases), Probes.InForce(epochs), Probes.AllResults(epochs), now);
  }

  ghost function VerdictAfter(phases: seq<Probes.Phase>, t: string, now: int): Probes.Verdict
    requires phases != []
  {
    Probes.VerdictOf(Probes.LastPolicy(phases), Probes.Inherited(Probes.EpochsOf(phases, t)), now)
  }

  /** The daemon's life up to a poll: trackers that inherit from one another record results, the last one serves a
      monitor, and a poll stores what it finds. */
  method PollAfter(groups: seq<Group>, phases: seq<Probes.Phase>, devices: string -> Device, now: int)
    returns (monitor: Monitor)
    requires phases != [] && forall i :: 0 <= i < |groups| ==> GroupOk(groups[i]) && DistinctMarks(groups[i].members)
    ensures monitor.groups == groups && |monitor.active| == |monitor.order| == |groups|
    ensures forall i :: 0 <= i < |groups| ==>
      Stored(groups, phases, devices, now, groups[i], monitor.active[i], monitor.order[i])
  {
    var tracker := Probes.RunPhases(phases);
    monitor := new Monitor(groups, tracker);
    ghost var verdicts := monitor.VerdictAt(now);
    var v, choices := monitor.Poll(devices, now);
    forall i | 0 <= i < |groups|
      ensures Stored(groups, phases, devices, now, groups[i], monitor.active[i], monitor.order[i])
    {
      assert groups[i] in groups;
      PublishesStored(groups, phases, devices, verdicts, now, v, groups[i], choices[i],
        monitor.active[i], monitor.order[i]);
    }
  }
}
