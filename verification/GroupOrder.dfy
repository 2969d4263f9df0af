/** Which member of a group carries new connections, and in what order the others follow. */
module GroupOrder {
  import opened Ordering
  import Probes

  datatype Member = Member(tunnel: string, mark: nat)
  datatype Group = Group(name: string, members: seq<Member>, healthyAfter: int)
  datatype Reason = RecentHandshake | RecentHandshakeProbePassing | ProbeFailingFailOpen | NoRecentHandshakeFailOpen

  /** What a poll knows: which tunnels shook hands recently, and each tunnel's probe verdict. */
  datatype View = View(recent: string -> bool, verdict: string -> Probes.Verdict)

  predicate CanCarry(v: View, m: Member) { v.recent(m.tunnel) && Probes.Eligible(v.verdict(m.tunnel)) }

  function MarksOf(members: seq<Member>): seq<nat> { seq(|members|, i requires 0 <= i < |members| => members[i].mark) }

  /** The members that can carry traffic, in preference order. */
  function Carriers(v: View, members: seq<Member>): (r: seq<Member>)
    ensures forall m :: m in r <==> m in members && CanCarry(v, m)
  {
    if members == [] then []
    else
      var front, last := Carriers(v, members[..|members| - 1]), members[|members| - 1];
      assert members == members[..|members| - 1] + [last];
      if CanCarry(v, last) then front + [last] else front
  }

  ghost predicate DistinctMarks(members: seq<Member>) {
    forall i, j :: 0 <= i < j < |members| ==> members[i].mark != members[j].mark
  }

  /** The members with the chosen one moved to the front. */
  function FrontedBy(members: seq<Member>, chosen: nat): seq<Member>
    requires chosen < |members|
  {
    [members[chosen]] + members[..chosen] + members[chosen + 1..]
  }

  method ChosenFirst(members: seq<Member>, chosen: nat) returns (marks: seq<nat>)
    requires chosen < |members|
    ensures marks == MarksOf(FrontedBy(members, chosen))
  {
    marks := [members[chosen].mark];
    for i := 0 to |members|
      invariant var rest := if i <= chosen then members[..i] else members[..chosen] + members[chosen + 1..i];
        marks == MarksOf([members[chosen]] + rest)
    {
      if i != chosen { marks := marks + [members[i].mark]; }
    }
    assert [members[chosen]] + (members[..chosen] + members[chosen + 1..|members|]) == FrontedBy(members, chosen);
  }

  /** The selection of one poll. */
  datatype Choice = Choice(mark: nat, ready: bool, reason: Reason, order: seq<nat>)

  /** The first member with a recent handshake, or none. */
  ghost predicate FirstRecent(v: View, members: seq<Member>, i: int) {
    -1 <= i < |members| &&
    (i == -1 ==> forall j :: 0 <= j < |members| ==> !v.recent(members[j].tunnel)) &&
    (i >= 0 ==> v.recent(members[i].tunnel) && forall j :: 0 <= j < i ==> !v.recent(members[j].tunnel))
  }

  /** Fail open: the first member with a session, else the primary, with every member in the order. */
  function FailOpen(members: seq<Member>, firstRecent: int): Choice
    requires -1 <= firstRecent < |members| && |members| > 0
  {
    if firstRecent >= 0 then
      Choice(members[firstRecent].mark, false, ProbeFailingFailOpen, MarksOf(FrontedBy(members, firstRecent)))
    else
      Choice(members[0].mark, false, NoRecentHandshakeFailOpen, MarksOf(members))
  }

  /** What a poll must publish for a group. */
  ghost predicate Selected(members: seq<Member>, v: View, c: Choice)
    requires |members| > 0
  {
    var carriers := Carriers(v, members);
    if carriers != [] then
      var passing := v.verdict(carriers[0].tunnel).Passing?;
      var reason := if passing then RecentHandshakeProbePassing else RecentHandshake;
      c == Choice(carriers[0].mark, true, reason, MarksOf(carriers))
    else
      exists i :: FirstRecent(v, members, i) && c == FailOpen(members, i)
  }

  method SelectMember(members: seq<Member>, v: View) returns (c: Choice)
    requires |members| > 0
    ensures Selected(members, v, c)
  {
    var firstRecent := -1;
    var eligible: seq<nat> := [];
    var verdict := Probes.Unknown;
    for i := 0 to |members|
      invariant FirstRecent(v, members[..i], firstRecent)
      invariant eligible == MarksOf(Carriers(v, members[..i]))
      invariant Carriers(v, members[..i]) != [] ==> verdict == v.verdict(Carriers(v, members[..i])[0].tunnel)
    {
      var member := members[i];
      assert members[..i + 1][..i] == members[..i];
      assert forall j :: 0 <= j < i ==> members[..i][j] == members[j];
      if v.recent(member.tunnel) {
        if firstRecent < 0 { firstRecent := i; }
        var p := v.verdict(member.tunnel);
        if Probes.Eligible(p) {
          if |eligible| == 0 { verdict := p; }
          eligible := eligible + [member.mark];
        }
      }
    }
    assert members[..|members|] == members;
    if |eligible| > 0 && verdict.Passing? { return Choice(eligible[0], true, RecentHandshakeProbePassing, eligible); }
    if |eligible| > 0 { return Choice(eligible[0], true, RecentHandshake, eligible); }
    if firstRecent >= 0 {
      var order := ChosenFirst(members, firstRecent);
      return Choice(members[firstRecent].mark, false, ProbeFailingFailOpen, order);
    }
    return Choice(members[0].mark, false, NoRecentHandshakeFailOpen, MarksOf(members));
  }

  // ---- the published order ----

  lemma {:induction false} CarriersDistinct(v: View, members: seq<Member>)
    requires DistinctMarks(members)
    ensures DistinctMarks(Carriers(v, members))
    decreases |members|
  {
    if members != [] {
      var front, last := members[..|members| - 1], members[|members| - 1];
      CarriersDistinct(v, front);
      forall i | 0 <= i < |Carriers(v, front)| ensures Carriers(v, front)[i].mark != last.mark {
        assert Carriers(v, front)[i] in front;
      }
    }
  }

  lemma {:induction false} CarriersInOrder(v: View, members: seq<Member>, i: nat, j: nat) returns (a: nat, b: nat)
    requires i < j < |Carriers(v, members)|
    ensures a < b < |members| && members[a] == Carriers(v, members)[i] && members[b] == Carriers(v, members)[j]
    decreases |members|
  {
    var front, last := members[..|members| - 1], members[|members| - 1];
    var inner := Carriers(v, front);
    if j < |inner| {
      a, b := CarriersInOrder(v, front, i, j);
    } else {
      assert inner[i] in front;
      a :| 0 <= a < |front| && front[a] == inner[i];
      b := |members| - 1;
    }
  }

  /** Where the element at a position of the fronted list came from. */
  function CameFrom(chosen: nat, i: nat): nat { if i == 0 then chosen else if i <= chosen then i - 1 else i }

  lemma FrontedAt(members: seq<Member>, chosen: nat, i: nat)
    requires chosen < |members| && i < |members|
    ensures CameFrom(chosen, i) < |members| && FrontedBy(members, chosen)[i] == members[CameFrom(chosen, i)]
  {}

  lemma FrontedMultiset(members: seq<Member>, chosen: nat)
    requires chosen < |members|
    ensures multiset(FrontedBy(members, chosen)) == multiset(members)
  {
    var a, m, b := members[..chosen], [members[chosen]], members[chosen + 1..];
    assert members == a + m + b && FrontedBy(members, chosen) == m + a + b;
  }

  lemma FrontedPermutes(members: seq<Member>, chosen: nat)
    requires chosen < |members|
    ensures multiset(FrontedBy(members, chosen)) == multiset(members)
    ensures DistinctMarks(members) ==> DistinctMarks(FrontedBy(members, chosen))
  {
    FrontedMultiset(members, chosen);
    var fronted := FrontedBy(members, chosen);
    if DistinctMarks(members) {
      forall i, j | 0 <= i < j < |fronted| ensures fronted[i].mark != fronted[j].mark {
        FrontedAt(members, chosen, i);
        FrontedAt(members, chosen, j);
      }
    }
  }

  lemma ReadyOrder(members: seq<Member>, v: View)
    requires DistinctMarks(members) && Carriers(v, members) != []
    ensures var order := MarksOf(Carriers(v, members));
      && Distinct(order)
      && (exists m :: m in members && CanCarry(v, m))
      && (forall m :: m in members ==> (CanCarry(v, m) <==> m.mark in order))
  {
    CarriersDistinct(v, members);
    ReadyMembers(members, v);
    assert Carriers(v, members)[0] in Carriers(v, members);
  }

  lemma DegradedOrder(members: seq<Member>, i: int)
    requires |members| > 0 && DistinctMarks(members) && -1 <= i < |members|
    ensures var c := FailOpen(members, i);
      |c.order| > 0 && c.order[0] == c.mark && Distinct(c.order) && multiset(c.order) == multiset(MarksOf(members))
  {
    if i >= 0 {
      FrontedPermutes(members, i);
      FrontedMarks(members, i);
    }
  }

  /** The order leads with member `chosen`; the others follow in their order. */
  ghost predicate LedBy(order: seq<nat>, members: seq<Member>, chosen: nat) {
    && chosen < |members| == |order| && order[0] == members[chosen].mark
    && (forall k :: 0 <= k < chosen ==> order[k + 1] == members[k].mark)
    && (forall k :: chosen < k < |members| ==> order[k] == members[k].mark)
  }

  /** Without a carrier the first member with a recent handshake leads, or the first member if there is none. */
  ghost predicate FailsOpen(members: seq<Member>, recent: string -> bool, order: seq<nat>) {
    && (forall i :: 0 <= i < |members| && FirstWith(members, recent, i) ==> LedBy(order, members, i))
    && ((forall j :: 0 <= j < |members| ==> !recent(members[j].tunnel)) ==> LedBy(order, members, 0))
  }

  ghost predicate FirstWith(members: seq<Member>, recent: string -> bool, i: nat)
    requires i < |members|
  {
    recent(members[i].tunnel) && forall j :: 0 <= j < i ==> !recent(members[j].tunnel)
  }

  lemma FailOpenLeads(members: seq<Member>, v: View, i: int)
    requires |members| > 0 && FirstRecent(v, members, i)
    ensures FailsOpen(members, v.recent, FailOpen(members, i).order)
  {
    var order, chosen := FailOpen(members, i).order, if i >= 0 then i else 0;
    FailOpenLedBy(members, i, order, chosen);
    forall k | 0 <= k < |members| && FirstWith(members, v.recent, k) ensures LedBy(order, members, k) {
      assert k == chosen;
    }
  }

  lemma FailOpenLedBy(members: seq<Member>, i: int, order: seq<nat>, chosen: nat)
    requires |members| > 0 && -1 <= i < |members| && order == FailOpen(members, i).order
    requires chosen == if i >= 0 then i else 0
    ensures LedBy(order, members, chosen)
  {
    if i >= 0 {
      var fronted := FrontedBy(members, i);
      assert forall k :: 0 <= k < i ==> fronted[k + 1] == members[k];
      assert forall k :: i < k < |members| ==> fronted[k] == members[k];
    }
  }

  /** The reason published with the selection: whether the chosen member's probe passes, or what is missing. */
  ghost predicate GivesReason(members: seq<Member>, v: View, c: Choice) {
    if c.ready then
      forall a :: 0 <= a < |members| && members[a].mark == c.mark ==>
        c.reason == if v.verdict(members[a].tunnel).Passing? then RecentHandshakeProbePassing else RecentHandshake
    else if exists a :: 0 <= a < |members| && v.recent(members[a].tunnel) then c.reason == ProbeFailingFailOpen
    else c.reason == NoRecentHandshakeFailOpen
  }

  lemma NoCarrier(members: seq<Member>, v: View)
    requires Carriers(v, members) == []
    ensures forall m :: m in members ==> !CanCarry(v, m)
  {
    forall m | m in members ensures !CanCarry(v, m) { assert m !in Carriers(v, members); }
  }

  /** `mark` is that of member `a`, which can carry traffic. */
  predicate Carrying(members: seq<Member>, v: View, mark: nat, a: nat) {
    a < |members| && members[a].mark == mark && CanCarry(v, members[a])
  }

  /** The order lists only members that can carry traffic, earlier members first. */
  ghost predicate InPreference(members: seq<Member>, v: View, order: seq<nat>) {
    && (forall i :: 0 <= i < |order| ==> CarriesSome(members, v, order[i]))
    && (forall i, j :: 0 <= i < j < |order| ==> Before(members, v, order[i], order[j]))
  }

  ghost predicate CarriesSome(members: seq<Member>, v: View, mark: nat) {
    exists a: nat :: Carrying(members, v, mark, a)
  }

  ghost predicate Before(members: seq<Member>, v: View, mark: nat, mark': nat) {
    exists a: nat, b: nat :: a < b && Carrying(members, v, mark, a) && Carrying(members, v, mark', b)
  }

  lemma CarriersPreferred(members: seq<Member>, v: View)
    ensures InPreference(members, v, MarksOf(Carriers(v, members)))
  {
    var r := Carriers(v, members);
    var order := MarksOf(r);
    forall i | 0 <= i < |order| ensures CarriesSome(members, v, order[i]) {
      assert r[i] in r;
      var a :| 0 <= a < |members| && members[a] == r[i];
      assert Carrying(members, v, order[i], a);
    }
    forall i, j | 0 <= i < j < |order| ensures Before(members, v, order[i], order[j]) {
      var a, b := CarriersInOrder(v, members, i, j);
      assert r[i] in r && r[j] in r;
      assert Carrying(members, v, order[i], a) && Carrying(members, v, order[j], b);
    }
  }

  /** The order a poll publishes: never empty, no mark twice, the chosen mark first; when ready exactly the
      members that can carry traffic, in preference order; when degraded, and only because none can, all members,
      led by the first with a recent handshake if there is one. */
  lemma PublishedOrder(members: seq<Member>, v: View, c: Choice)
    requires |members| > 0 && DistinctMarks(members) && Selected(members, v, c)
    ensures |c.order| > 0 && c.order[0] == c.mark && Distinct(c.order)
    ensures c.ready <==> exists m :: m in members && CanCarry(v, m)
    ensures c.ready ==> forall m :: m in members ==> (CanCarry(v, m) <==> m.mark in c.order)
    ensures c.ready ==> InPreference(members, v, c.order)
    ensures !c.ready ==> multiset(c.order) == multiset(MarksOf(members)) && FailsOpen(members, v.recent, c.order)
    ensures GivesReason(members, v, c)
  {
    if Carriers(v, members) != [] {
      ReadyOrder(members, v);
      CarriersPreferred(members, v);
      assert Carriers(v, members)[0] in members;
    } else {
      NoCarrier(members, v);
      var i :| FirstRecent(v, members, i) && c == FailOpen(members, i);
      DegradedOrder(members, i);
      FailOpenLeads(members, v, i);
    }
  }

  lemma ReadyMembers(members: seq<Member>, v: View)
    requires DistinctMarks(members)
    ensures forall m :: m in members ==> (CanCarry(v, m) <==> m.mark in MarksOf(Carriers(v, members)))
  {
    var r := Carriers(v, members);
    forall m | m in members ensures CanCarry(v, m) <==> m.mark in MarksOf(r) {
      if CanCarry(v, m) {
        var j :| 0 <= j < |r| && r[j] == m;
        assert MarksOf(r)[j] == m.mark;
      }
      if m.mark in MarksOf(r) {
        var j :| 0 <= j < |r| && MarksOf(r)[j] == m.mark;
        assert r[j] in members;
        var a :| 0 <= a < |members| && members[a] == r[j];
        var b :| 0 <= b < |members| && members[b] == m;
        assert a == b;
      }
    }
  }

  lemma FrontedMarks(members: seq<Member>, chosen: nat)
    requires chosen < |members|
    ensures multiset(MarksOf(FrontedBy(members, chosen))) == multiset(MarksOf(members))
  {
    var a, m, b := MarksOf(members[..chosen]), members[chosen].mark, MarksOf(members[chosen + 1..]);
    assert MarksOf(FrontedBy(members, chosen)) == [m] + a + b;
    assert MarksOf(members) == a + [m] + b;
  }

  // ---- thresholds ----

  ghost predicate Uses(members: seq<Member>, tunnel: string) { exists m :: m in members && m.tunnel == tunnel }

  lemma UsesMore(members: seq<Member>, m: Member, tunnel: string)
    ensures Uses(members + [m], tunnel) <==> Uses(members, tunnel) || m.tunnel == tunnel
  {
    if Uses(members, tunnel) {
      var q :| q in members && q.tunnel == tunnel;
      assert q in members + [m];
    }
    if m.tunnel == tunnel { assert m in members + [m]; }
  }

  /** `t` is the smallest bound among the groups that use `tunnel`. */
  ghost predicate SmallestBound(groups: seq<Group>, tunnel: string, t: int) {
    && (exists g :: g in groups && Uses(g.members, tunnel) && g.healthyAfter == t)
    && (forall g :: g in groups && Uses(g.members, tunnel) ==> t <= g.healthyAfter)
  }

  ghost predicate ThresholdOf(groups: seq<Group>, thresholds: map<string, int>, tunnel: string) {
    if tunnel in thresholds then SmallestBound(groups, tunnel, thresholds[tunnel])
    else forall g :: g in groups ==> !Uses(g.members, tunnel)
  }

  /** The bound one more group leaves for `tunnel`. */
  ghost predicate Lowered(before: map<string, int>, after: map<string, int>, members: seq<Member>, bound: int,
                          tunnel: string)
  {
    if Uses(members, tunnel) then
      tunnel in after && after[tunnel] == if tunnel in before && before[tunnel] <= bound then before[tunnel] else bound
    else
      (tunnel in after <==> tunnel in before) && (tunnel in after ==> after[tunnel] == before[tunnel])
  }

  method LowerThresholds(g: Group, before: map<string, int>) returns (after: map<string, int>)
    requires g.healthyAfter > 0 && forall t :: t in before ==> before[t] > 0
    ensures forall t :: Lowered(before, after, g.members, g.healthyAfter, t)
  {
    after := before;
    for i := 0 to |g.members|
      invariant forall t :: Lowered(before, after, g.members[..i], g.healthyAfter, t)
    {
      var tunnel := g.members[i].tunnel;
      assert g.members[..i + 1] == g.members[..i] + [g.members[i]];
      assert Lowered(before, after, g.members[..i], g.healthyAfter, tunnel);
      var current := if tunnel in after then after[tunnel] else 0;
      ghost var was, upTo := after, g.members[..i + 1];
      if current == 0 || g.healthyAfter < current { after := after[tunnel := g.healthyAfter]; }
      forall t ensures Lowered(before, after, upTo, g.healthyAfter, t) {
        UsesMore(g.members[..i], g.members[i], t);
        assert Lowered(before, was, g.members[..i], g.healthyAfter, t);
      }
    }
    assert g.members[..|g.members|] == g.members;
  }

  lemma ThresholdStep(groups: seq<Group>, g: Group, before: map<string, int>, after: map<string, int>, tunnel: string)
    requires ThresholdOf(groups, before, tunnel) && Lowered(before, after, g.members, g.healthyAfter, tunnel)
    ensures ThresholdOf(groups + [g], after, tunnel)
  {
    var more := groups + [g];
    assert forall q :: q in more <==> q in groups || q == g;
    if tunnel in before {
      var q :| q in groups && Uses(q.members, tunnel) && q.healthyAfter == before[tunnel];
      assert q in more;
    }
    if Uses(g.members, tunnel) { assert g in more; }
  }

  /** A tunnel's handshake is judged by the strictest group that uses it; no other tunnel is queried. */
  method Thresholds(groups: seq<Group>) returns (thresholds: map<string, int>)
    requires forall g :: g in groups ==> g.healthyAfter > 0
    ensures forall t :: ThresholdOf(groups, thresholds, t)
  {
    thresholds := map[];
    for i := 0 to |groups|
      invariant forall t :: ThresholdOf(groups[..i], thresholds, t)
      invariant forall t :: t in thresholds ==> thresholds[t] > 0
    {
      assert groups[..i + 1] == groups[..i] + [groups[i]];
      var next := LowerThresholds(groups[i], thresholds);
      forall t
        ensures ThresholdOf(groups[..i + 1], next, t)
        ensures t in next ==> next[t] > 0
      {
        assert ThresholdOf(groups[..i], thresholds, t) &&
          Lowered(thresholds, next, groups[i].members, groups[i].healthyAfter, t);
        ThresholdStep(groups[..i], groups[i], thresholds, next, t);
      }
      thresholds := next;
    }
    assert groups[..|groups|] == groups;
  }

  // ---- reading the published mark ----

  /** Storing a 32-bit mark in a signed 32-bit cell. */
  function ToInt32(mark: nat): (cell: int)
    requires mark < 0x1_0000_0000
    ensures -0x8000_0000 <= cell < 0x8000_0000 && (cell - mark) % 0x1_0000_0000 == 0
  {
    if mark < 0x8000_0000 then mark else mark - 0x1_0000_0000
  }

  /** A route's egress reference: a static mark, or a group's active cell with its published order. */
  datatype MarkRef = Static(mark: int) | Dynamic(active: int, order: seq<nat>)

  function Mark(ref: MarkRef): int { if ref.Static? then ref.mark else ref.active }

  /** The egress order of a connection. */
  function Marks(ref: MarkRef): (r: seq<int>)
    ensures |r| > 0
  {
    if ref.Dynamic? && |ref.order| > 0 then seq(|ref.order|, i requires 0 <= i < |ref.order| => ref.order[i] as int)
    else [Mark(ref)]
  }

  /** What a route sees of a group after a poll. */
  function Published(c: Choice): MarkRef
    requires c.mark < 0x1_0000_0000
  {
    Dynamic(ToInt32(c.mark), c.order)
  }

  predicate Agrees(ref: MarkRef) { Mark(ref) == Marks(ref)[0] }

  /** No earlier member uses the same tunnel: every member, when tunnels are distinct. */
  predicate FirstOfTunnel(members: seq<Member>, i: nat) {
    i < |members| && forall j :: 0 <= j < i ==> members[j].tunnel != members[i].tunnel
  }

  lemma {:induction false} FirstCarrier(v: View, members: seq<Member>) returns (i: nat)
    requires Carriers(v, members) != []
    ensures i < |members| && members[i] == Carriers(v, members)[0] && CanCarry(v, members[i])
    ensures forall j :: 0 <= j < i ==> !CanCarry(v, members[j])
    decreases |members|
  {
    var front := members[..|members| - 1];
    if Carriers(v, front) != [] {
      i := FirstCarrier(v, front);
    } else {
      i := |members| - 1;
      forall j | 0 <= j < i ensures !CanCarry(v, members[j]) { assert front[j] == members[j] && front[j] in front; }
    }
  }

  /** Whatever a poll sees, it chooses a member that is the first of its tunnel. */
  lemma ChosenIsFirst(members: seq<Member>, v: View, c: Choice) returns (i: nat)
    requires |members| > 0 && Selected(members, v, c)
    ensures FirstOfTunnel(members, i) && c.mark == members[i].mark
  {
    if Carriers(v, members) != [] {
      i := FirstCarrier(v, members);
    } else {
      var r :| FirstRecent(v, members, r) && c == FailOpen(members, r);
      i := if r >= 0 then r else 0;
    }
  }

  /** Some view makes a poll choose any such member. */
  lemma CanBeChosen(members: seq<Member>, i: nat) returns (v: View, c: Choice)
    requires FirstOfTunnel(members, i)
    ensures Selected(members, v, c) && c.mark == members[i].mark
  {
    v := View(t => t == members[i].tunnel, t => Probes.Unknown);
    assert members[i] in members && CanCarry(v, members[i]);
    assert members[i] in Carriers(v, members);
    var a := FirstCarrier(v, members);
    assert a == i;
    c := Choice(members[i].mark, true, RecentHandshake, MarksOf(Carriers(v, members)));
  }

  ghost predicate AlwaysAgrees(members: seq<Member>)
    requires |members| > 0
  {
    forall v, c :: Selected(members, v, c) && c.mark < 0x1_0000_0000 ==> Agrees(Published(c))
  }

  ghost predicate FitSigned(members: seq<Member>) {
    forall i: nat :: FirstOfTunnel(members, i) ==> members[i].mark < 0x8000_0000
  }

  lemma AgreesMeans(members: seq<Member>, v: View, c: Choice)
    requires |members| > 0 && DistinctMarks(members) && Selected(members, v, c) && c.mark < 0x1_0000_0000
    ensures Agrees(Published(c)) <==> c.mark < 0x8000_0000
  {
    PublishedOrder(members, v, c);
  }

  /** Whatever the polls see, a group's single mark is the head of its published order, exactly when the mark of
      every member that is the first of its tunnel is below 2^31. */
  lemma MarkAgreesWithOrder(members: seq<Member>)
    requires |members| > 0 && DistinctMarks(members) && forall m :: m in members ==> m.mark < 0x1_0000_0000
    ensures AlwaysAgrees(members) <==> FitSigned(members)
  {
    if FitSigned(members) {
      forall v, c | Selected(members, v, c) && c.mark < 0x1_0000_0000 ensures Agrees(Published(c)) {
        AgreesMeans(members, v, c);
        var i := ChosenIsFirst(members, v, c);
      }
    } else {
      var i: nat :| FirstOfTunnel(members, i) && members[i].mark >= 0x8000_0000;
      var v, c := CanBeChosen(members, i);
      assert members[i] in members;
      AgreesMeans(members, v, c);
    }
  }

  lemma OneMember(v: View, m: Member, c: Choice)
    requires Selected([m], v, c)
    ensures c.mark == m.mark && c.order == [m.mark]
  {
    CarriersOfOne(v, m);
    assert MarksOf([m]) == [m.mark];
    if !CanCarry(v, m) {
      FailOpenOfOne(v, m, c);
    }
  }

  lemma CarriersOfOne(v: View, m: Member)
    ensures Carriers(v, [m]) == if CanCarry(v, m) then [m] else []
  {
    assert [m][..0] == [];
  }

  lemma FailOpenOfOne(v: View, m: Member, c: Choice)
    requires exists r :: FirstRecent(v, [m], r) && c == FailOpen([m], r)
    ensures c.mark == m.mark && c.order == [m.mark]
  {
    var r :| FirstRecent(v, [m], r) && c == FailOpen([m], r);
    FrontedOfOne(m);
    assert c.order == if r == 0 then MarksOf(FrontedBy([m], 0)) else MarksOf([m]);
  }

  lemma FrontedOfOne(m: Member)
    ensures FrontedBy([m], 0) == [m] && MarksOf([m]) == [m.mark]
  {}

  /** A group of one tunnel with mark 2^31, which the configuration accepts: no poll makes the two agree. */
  lemma MarkDisagrees(v: View, c: Choice)
    requires Selected([Member("wg0", 0x8000_0000)], v, c)
    ensures c.mark == 0x8000_0000 && Mark(Published(c)) == -0x8000_0000 && Marks(Published(c)) == [0x8000_0000]
  {
    OneMember(v, Member("wg0", 0x8000_0000), c);
  }
}
