/** The output chain that keeps marked traffic on its own tunnel. */
module EgressGuard {
  import opened Results
  import opened Ordering
  import Allocations

  datatype MarkGuard = MarkGuard(iface: string, mark: bv32, mask: bv32)

  /** A packet about to leave: its mark and the output interface routing chose. */
  datatype Packet = Packet(mark: bv32, out: string)

  datatype Rule = ReturnOn(iface: string) | RejectElsewhere(iface: string, mark: bv32, mask: bv32)
  datatype Verdict = Returned | Rejected | FellThrough

  predicate Matches(r: Rule, p: Packet) {
    match r
    case ReturnOn(iface) => p.out == iface
    case RejectElsewhere(iface, mark, mask) => p.out != iface && Allocations.Selects(mark, mask, p.mark)
  }

  /** First-match evaluation of a chain. */
  function Evaluate(rules: seq<Rule>, p: Packet): Verdict {
    if rules == [] then FellThrough
    else if Matches(rules[0], p) then (if rules[0].ReturnOn? then Returned else Rejected)
    else Evaluate(rules[1..], p)
  }

  const FORBIDDEN := " \t\r\n\"'"

  predicate ValidInterface(name: string): (ok: bool)
    ensures ok <==> name != "" && ' ' !in name && '\t' !in name && '\r' !in name && '\n' !in name &&
                    '"' !in name && '\'' !in name
  {
    name != "" && forall i :: 0 <= i < |name| ==> name[i] !in FORBIDDEN
  }

  /** A usable guard: a well-formed interface, and a nonzero mark inside a nonzero mask. */
  ghost predicate GuardOk(g: MarkGuard) {
    ValidInterface(g.iface) && g.mark != 0 && g.mask != 0 && Allocations.Selects(g.mark, g.mask, g.mark)
  }

  ghost predicate DistinctInterfaces(guards: seq<MarkGuard>) {
    forall i, j :: 0 <= i < j < |guards| ==> guards[i].iface != guards[j].iface
  }

  ghost predicate Compilable(guards: seq<MarkGuard>) {
    (forall i :: 0 <= i < |guards| ==> GuardOk(guards[i])) && DistinctInterfaces(guards)
  }

  predicate ByInterface(a: MarkGuard, b: MarkGuard) { TextLess(a.iface, b.iface) }

  lemma NotAfter(x: string, y: string, z: string)
    ensures !TextLess(x, y) && !TextLess(y, z) ==> !TextLess(x, z)
    ensures TextLess(x, y) ==> !TextLess(y, x)
  {
    TextLessConnected(x, y);
    TextLessConnected(y, z);
    TextLessConnected(x, x);
    TextLessConnected(z, x);
    if TextLess(x, y) && TextLess(y, x) { TextLessTransitive(x, y, x); }
    if TextLess(x, z) && TextLess(z, y) { TextLessTransitive(x, z, y); }
    if TextLess(z, y) && TextLess(y, x) { TextLessTransitive(z, y, x); }
    if TextLess(x, z) && TextLess(z, x) { TextLessTransitive(x, z, x); }
  }

  lemma ByInterfaceWeak()
    ensures StrictWeak(ByInterface)
  {
    forall x: MarkGuard, y: MarkGuard ensures ByInterface(x, y) ==> !ByInterface(y, x) {
      NotAfter(x.iface, y.iface, x.iface);
    }
    forall x: MarkGuard, y: MarkGuard, z: MarkGuard | !ByInterface(x, y) && !ByInterface(y, z)
      ensures !ByInterface(x, z)
    {
      NotAfter(x.iface, y.iface, z.iface);
    }
  }

  /** In a sorted list, distinct neighbours mean that all are distinct. */
  lemma {:induction false} NeighboursDecide(sorted: seq<MarkGuard>, i: nat, j: nat)
    requires Ordered(sorted, ByInterface) && i < j < |sorted|
    requires forall q :: 0 <= q < |sorted| - 1 ==> sorted[q].iface != sorted[q + 1].iface
    ensures TextLess(sorted[i].iface, sorted[j].iface)
    decreases j
  {
    TextLessTotal();
    assert !ByInterface(sorted[j], sorted[j - 1]);
    assert sorted[j - 1].iface != sorted[j - 1 + 1].iface;
    if i < j - 1 { NeighboursDecide(sorted, i, j - 1); }
  }

  ghost predicate RejectsFor(guards: seq<MarkGuard>, p: Packet) {
    exists i :: 0 <= i < |guards| && Allocations.Selects(guards[i].mark, guards[i].mask, p.mark) &&
      p.out != guards[i].iface
  }

  /** The chain rejects a packet exactly when a guard's selector matches and the packet leaves neither by that
      guard's interface nor by loopback. */
  ghost predicate Guards(rules: seq<Rule>, guards: seq<MarkGuard>) {
    forall p :: Evaluate(rules, p) == Rejected <==> p.out != "lo" && RejectsFor(guards, p)
  }

  function RejectRule(g: MarkGuard): Rule { RejectElsewhere(g.iface, g.mark, g.mask) }

  lemma {:induction false} EvaluateRejects(rules: seq<Rule>, guards: seq<MarkGuard>, p: Packet)
    requires |rules| == |guards| && forall i :: 0 <= i < |guards| ==> rules[i] == RejectRule(guards[i])
    ensures Evaluate(rules, p) == if RejectsFor(guards, p) then Rejected else FellThrough
    decreases |rules|
  {
    if rules != [] {
      EvaluateRejects(rules[1..], guards[1..], p);
      assert forall i :: 0 <= i < |guards| - 1 ==> guards[1..][i] == guards[i + 1];
      if RejectsFor(guards, p) {
        var i :| 0 <= i < |guards| && Allocations.Selects(guards[i].mark, guards[i].mask, p.mark) &&
          p.out != guards[i].iface;
        if i > 0 { assert guards[1..][i - 1] == guards[i]; }
      }
    }
  }

  lemma RejectsForPermuted(guards: seq<MarkGuard>, sorted: seq<MarkGuard>, p: Packet)
    requires multiset(guards) == multiset(sorted)
    ensures RejectsFor(guards, p) <==> RejectsFor(sorted, p)
  {
    SameMembers(guards, sorted);
    if RejectsFor(guards, p) {
      var i :| 0 <= i < |guards| && Allocations.Selects(guards[i].mark, guards[i].mask, p.mark) &&
        p.out != guards[i].iface;
      assert guards[i] in sorted;
    }
    if RejectsFor(sorted, p) {
      var i :| 0 <= i < |sorted| && Allocations.Selects(sorted[i].mark, sorted[i].mask, p.mark) &&
        p.out != sorted[i].iface;
      assert sorted[i] in guards;
    }
  }

  lemma CompilablePermuted(guards: seq<MarkGuard>, sorted: seq<MarkGuard>)
    requires multiset(guards) == multiset(sorted) && Compilable(guards)
    ensures Compilable(sorted)
  {
    SameMembers(guards, sorted);
    forall i | 0 <= i < |sorted| ensures GuardOk(sorted[i]) { assert sorted[i] in guards; }
    forall i, j | 0 <= i < j < |sorted| ensures sorted[i].iface != sorted[j].iface {
      var a, b := PermutedPair(sorted, guards, i, j);
      assert a < b ==> guards[a].iface != guards[b].iface;
      assert b < a ==> guards[b].iface != guards[a].iface;
    }
  }

  ghost predicate Checked(sorted: seq<MarkGuard>, i: nat)
    requires i <= |sorted|
  {
    && (forall j :: 0 <= j < i ==> GuardOk(sorted[j]))
    && (forall j :: 0 <= j < i - 1 ==> sorted[j].iface != sorted[j + 1].iface)
  }

  /** The rules for a sorted guard list, or an error at the first unusable guard. */
  method RejectRules(sorted: seq<MarkGuard>) returns (r: Result<seq<Rule>>)
    ensures r.Ok? ==> Checked(sorted, |sorted|)
    ensures r.Ok? ==> |r.value| == |sorted| && forall i :: 0 <= i < |sorted| ==> r.value[i] == RejectRule(sorted[i])
    ensures r.Err? ==> !Compilable(sorted)
  {
    var rejects: seq<Rule> := [];
    for i := 0 to |sorted|
      invariant Checked(sorted, i)
      invariant |rejects| == i && forall j :: 0 <= j < i ==> rejects[j] == RejectRule(sorted[j])
    {
      var guard := sorted[i];
      if !ValidInterface(guard.iface) { return Err; }
      if i > 0 && sorted[i - 1].iface == guard.iface { return Err; }
      if guard.mark == 0 || guard.mask == 0 || !Allocations.Selects(guard.mark, guard.mask, guard.mark) { return Err; }
      rejects := rejects + [RejectElsewhere(guard.iface, guard.mark, guard.mask)];
    }
    return Ok(rejects);
  }

  /** The compiled chain: it exists exactly for well-formed guards on distinct interfaces, and it rejects a
      packet exactly when some guard's selector matches and the packet leaves neither by that guard's
      interface nor by loopback. */
  method CompileEgressGuard(guards: seq<MarkGuard>) returns (r: Result<seq<Rule>>)
    ensures r.Ok? <==> Compilable(guards)
    ensures r.Ok? ==> Guards(r.value, guards)
  {
    if |guards| == 0 {
      return Ok([]);
    }
    var sorted := SortBy(guards, ByInterface);
    ByInterfaceWeak();
    SortByOrdered(guards, ByInterface);
    var rejects := RejectRules(sorted);
    if rejects.Err? {
      if Compilable(guards) { CompilablePermuted(guards, sorted); }
      return Err;
    }
    ChainMeaning(guards, sorted, rejects.value);
    r := Ok([ReturnOn("lo")] + rejects.value);
  }

  lemma ChainMeaning(guards: seq<MarkGuard>, sorted: seq<MarkGuard>, rejects: seq<Rule>)
    requires multiset(guards) == multiset(sorted) && Ordered(sorted, ByInterface)
    requires Checked(sorted, |sorted|)
    requires |rejects| == |sorted| && forall i :: 0 <= i < |sorted| ==> rejects[i] == RejectRule(sorted[i])
    ensures Compilable(guards)
    ensures Guards([ReturnOn("lo")] + rejects, guards)
  {
    forall i, j | 0 <= i < j < |sorted| ensures sorted[i].iface != sorted[j].iface {
      NeighboursDecide(sorted, i, j);
      TextLessConnected(sorted[i].iface, sorted[i].iface);
    }
    CompilablePermuted(sorted, guards);
    forall p ensures Evaluate([ReturnOn("lo")] + rejects, p) == Rejected <==> p.out != "lo" && RejectsFor(guards, p) {
      assert ([ReturnOn("lo")] + rejects)[1..] == rejects;
      EvaluateRejects(rejects, sorted, p);
      RejectsForPermuted(guards, sorted, p);
    }
  }

  // ---- together with accepted allocations ----

  /** The guards of the tunnels whose allocations were accepted. */
  function GuardsOf(allocations: seq<Allocations.Allocation>): (guards: seq<MarkGuard>)
    ensures |guards| == |allocations|
    ensures forall i :: 0 <= i < |guards| ==>
      guards[i] == MarkGuard(allocations[i].name, allocations[i].mark, allocations[i].mask)
  {
    seq(|allocations|,
      i requires 0 <= i < |allocations| => MarkGuard(allocations[i].name, allocations[i].mark, allocations[i].mask))
  }

  ghost predicate SelectsTunnel(allocations: seq<Allocations.Allocation>, t: nat, m: bv32) {
    t < |allocations| && Allocations.Selects(allocations[t].mark, allocations[t].mask, m)
  }

  /** Fail-closed: a packet whose mark selects a tunnel is rejected exactly when it leaves neither by that
      tunnel nor by loopback. */
  lemma GuardFailsClosed(allocations: seq<Allocations.Allocation>, rules: seq<Rule>, p: Packet, t: nat)
    requires Allocations.Valid(allocations) && Guards(rules, GuardsOf(allocations)) &&
      SelectsTunnel(allocations, t, p.mark)
    ensures Evaluate(rules, p) == Rejected <==> p.out != "lo" && p.out != allocations[t].name
  {
    var guards := GuardsOf(allocations);
    if RejectsFor(guards, p) {
      var i :| 0 <= i < |guards| && Allocations.Selects(guards[i].mark, guards[i].mask, p.mark) &&
        p.out != guards[i].iface;
      Allocations.MarkSelectsAtMostOne(allocations, i, t, p.mark);
    }
    if p.out != allocations[t].name {
      assert Allocations.Selects(guards[t].mark, guards[t].mask, p.mark) && p.out != guards[t].iface;
    }
  }

  /** Inert: a packet whose mark selects no tunnel, an unmarked one among them, is never rejected. */
  lemma UnselectedNeverRejected(allocations: seq<Allocations.Allocation>, rules: seq<Rule>, p: Packet)
    requires Allocations.Valid(allocations) && Guards(rules, GuardsOf(allocations))
    ensures p.mark == 0 || (forall t :: !SelectsTunnel(allocations, t, p.mark)) ==> Evaluate(rules, p) != Rejected
  {
    var guards := GuardsOf(allocations);
    if RejectsFor(guards, p) {
      var i :| 0 <= i < |guards| && Allocations.Selects(guards[i].mark, guards[i].mask, p.mark) &&
        p.out != guards[i].iface;
      assert Allocations.Sound(allocations[i]);
      ZeroSelectsNothing(guards[i].mark, guards[i].mask);
      assert SelectsTunnel(allocations, i, p.mark);
    }
  }

  lemma ZeroSelectsNothing(mark: bv32, mask: bv32)
    ensures Allocations.Selects(mark, mask, 0) ==> mark == 0
  {}

  /** Accepted allocations on distinct well-formed interfaces always compile. */
  lemma AcceptedCompile(allocations: seq<Allocations.Allocation>)
    requires Allocations.Valid(allocations)
    requires forall i :: 0 <= i < |allocations| ==> ValidInterface(allocations[i].name)
    requires forall i, j :: 0 <= i < j < |allocations| ==> allocations[i].name != allocations[j].name
    ensures Compilable(GuardsOf(allocations))
  {
    var guards := GuardsOf(allocations);
    forall i | 0 <= i < |guards| ensures GuardOk(guards[i]) {
      assert Allocations.Sound(allocations[i]);
      Allocations.ZeroMask(guards[i].mark);
    }
  }
}
