/** Reconciling a tunnel's policy rule: exactly one rule of its own at its priority, nothing else touched. */
module RuleReconcile {
  import opened Options

  const RULE_PROTOCOL := 186
  const FULL_MASK := Bits(0xffff_ffff)

  /** A 32-bit mark or mask. */
  datatype Bits = Bits(value: bv32)

  datatype Rule = Rule(priority: int, mark: Bits, mask: Option<Bits>, table: int, protocol: nat)
  datatype Tunnel = Tunnel(rulePriority: int, fwmark: Bits, fwmarkMask: Bits, table: int)

  function RuleMask(mask: Option<Bits>): Bits { if mask.None? then FULL_MASK else mask.value }

  predicate RuleEqual(a: Rule, b: Rule) {
    a.priority == b.priority && a.mark == b.mark && RuleMask(a.mask) == RuleMask(b.mask) &&
    a.table == b.table && a.protocol == b.protocol
  }

  function MarkRule(t: Tunnel): Rule {
    Rule(t.rulePriority, t.fwmark, Some(t.fwmarkMask), t.table, RULE_PROTOCOL)
  }

  /** The kernel's policy rules; `history` records every state since it was last cleared. */
  class RuleKernel {
    var rules: multiset<Rule>
    ghost var history: seq<multiset<Rule>>

    constructor (rules: multiset<Rule>)
      ensures this.rules == rules && history == []
    {
      this.rules, history := rules, [];
    }

    method RuleAdd(r: Rule, fails: bool) returns (ok: bool)
      modifies this
      ensures ok == !fails && rules == (if ok then old(rules) + multiset{r} else old(rules))
      ensures history == old(history) + [rules]
    {
      ok := !fails;
      if ok { rules := rules + multiset{r}; }
      history := history + [rules];
    }

    method RuleDel(r: Rule, fails: bool) returns (ok: bool)
      modifies this
      ensures ok == !fails && rules == (if ok then old(rules) - multiset{r} else old(rules))
      ensures history == old(history) + [rules]
    {
      ok := !fails;
      if ok { rules := rules - multiset{r}; }
      history := history + [rules];
    }
  }

  /** Rules at other priorities and rules without the reserved protocol keep their number, and a correct
      rule that was installed stays installed. */
  ghost predicate Safe(s: multiset<Rule>, start: multiset<Rule>, desired: Rule) {
    && (forall r: Rule :: r.priority != desired.priority || r.protocol != RULE_PROTOCOL ==> s[r] == start[r])
    && ((exists e :: e in start && RuleEqual(e, desired)) ==> exists e :: e in s && RuleEqual(e, desired))
  }

  ghost predicate AllSafe(history: seq<multiset<Rule>>, start: multiset<Rule>, desired: Rule) {
    forall i :: 0 <= i < |history| ==> Safe(history[i], start, desired)
  }

  ghost predicate OnlyRuleAt(s: multiset<Rule>, priority: int, e: Rule) {
    forall r: Rule :: r.priority == priority ==> s[r] == if r == e then 1 else 0
  }

  /** Exactly one rule at the priority, the tunnel's own; every other priority as before. */
  ghost predicate Settled(s: multiset<Rule>, start: multiset<Rule>, desired: Rule) {
    && (forall r: Rule :: r.priority != desired.priority ==> s[r] == start[r])
    && exists e :: RuleEqual(e, desired) && OnlyRuleAt(s, desired.priority, e)
  }

  /** The packet has the mark in the bits of the mask. */
  ghost predicate Under(packet: Bits, mark: Bits, mask: Bits) { packet.value & mask.value == mark.value & mask.value }

  /** How the kernel reads a rule: it sends to its table the packets that have its mark in the bits it looks at; without
      a mask it looks at all 32. */
  ghost predicate Sends(r: Rule, packet: Bits) {
    match r.mask
    case None => packet == r.mark
    case Some(mask) => Under(packet, r.mark, mask)
  }

  /** At the tunnel's priority there is one rule, with the reserved protocol, and it sends exactly the packets that
      have the tunnel's mark under its mask to the tunnel's table. */
  ghost predicate SendsOwn(s: multiset<Rule>, t: Tunnel) {
    exists e :: OnlyRuleAt(s, t.rulePriority, e) && OwnRule(e, t)
  }

  ghost predicate OwnRule(e: Rule, t: Tunnel) {
    && e.priority == t.rulePriority && e.mark == t.fwmark && e.table == t.table && e.protocol == RULE_PROTOCOL
    && forall packet: Bits :: Sends(e, packet) <==> Under(packet, t.fwmark, t.fwmarkMask)
  }

  lemma FullMaskKeeps(x: Bits, mark: Bits)
    ensures x == mark <==> Under(x, mark, Bits(0xffff_ffff))
  {}

  lemma SendsAlike(e: Rule, mark: Bits, mask: Bits, packet: Bits)
    requires e.mark == mark && RuleMask(e.mask) == mask
    ensures Sends(e, packet) <==> Under(packet, mark, mask)
  {
    match e.mask
    case None => FullMaskKeeps(packet, mark);
    case Some(_) =>
  }

  /** A rule that equals the tunnel's sends what the tunnel's rule sends, also when the kernel lists a full mask as no
      mask. */
  lemma EqualIsOwn(e: Rule, t: Tunnel)
    requires RuleEqual(e, MarkRule(t))
    ensures OwnRule(e, t)
  {
    forall packet: Bits { SendsAlike(e, t.fwmark, t.fwmarkMask, packet); }
  }

  lemma SettledSends(s: multiset<Rule>, start: multiset<Rule>, t: Tunnel)
    requires Settled(s, start, MarkRule(t))
    ensures SendsOwn(s, t)
  {
    var e :| RuleEqual(e, MarkRule(t)) && OnlyRuleAt(s, t.rulePriority, e);
    EqualIsOwn(e, t);
  }

  /** Only a rule with the tunnel's priority, mark, mask, table and protocol counts as its rule. */
  lemma EqualMeans(e: Rule, t: Tunnel)
    ensures RuleEqual(e, MarkRule(t)) <==>
      && e.priority == t.rulePriority && e.mark == t.fwmark && e.table == t.table && e.protocol == RULE_PROTOCOL
      && (e.mask == Some(t.fwmarkMask) || (e.mask == None && t.fwmarkMask == Bits(0xffff_ffff)))
  {}

  ghost predicate Occupied(rules: multiset<Rule>, desired: Rule) {
    exists r :: r in rules && r.priority == desired.priority && !RuleEqual(r, desired) && r.protocol != RULE_PROTOCOL
  }

  predicate Stays(r: Rule, desired: Rule) { r.priority != desired.priority || RuleEqual(r, desired) }

  /** Rules read so far are kept only if they stay; the rest of the list is still in place. */
  ghost predicate Scanned(s: multiset<Rule>, list: seq<Rule>, i: nat, desired: Rule)
    requires i <= |list|
  {
    forall r :: s[r] == multiset(list[i..])[r] + if Stays(r, desired) then multiset(list[..i])[r] else 0
  }

  lemma ScannedIsSafe(s: multiset<Rule>, list: seq<Rule>, i: nat, desired: Rule)
    requires i <= |list| && Scanned(s, list, i, desired) && desired.protocol == RULE_PROTOCOL
    requires Readable(list, i, desired)
    ensures Safe(s, multiset(list), desired)
  {
    assert list == list[..i] + list[i..];
    forall r: Rule | r.priority != desired.priority || r.protocol != RULE_PROTOCOL ensures s[r] == multiset(list)[r] {
      if !Stays(r, desired) {
        assert r !in list[..i];
      }
    }
    if e :| e in multiset(list) && RuleEqual(e, desired) { assert e in s; }
  }

  lemma ScanStep(s: multiset<Rule>, list: seq<Rule>, i: nat, desired: Rule)
    requires i < |list| && Scanned(s, list, i, desired)
    ensures Scanned(if Stays(list[i], desired) then s else s - multiset{list[i]}, list, i + 1, desired)
  {
    assert list[..i + 1] == list[..i] + [list[i]];
    assert list[i..] == [list[i]] + list[i + 1..];
  }

  /** `exact` holds the rules of `list` that equal the desired one, with their multiplicity. */
  ghost predicate Exact(exact: seq<Rule>, list: seq<Rule>, desired: Rule) {
    forall r :: multiset(exact)[r] == if RuleEqual(r, desired) then multiset(list)[r] else 0
  }

  lemma ExactStep(exact: seq<Rule>, list: seq<Rule>, i: nat, desired: Rule)
    requires i < |list| && Exact(exact, list[..i], desired)
    ensures Exact(if RuleEqual(list[i], desired) then exact + [list[i]] else exact, list[..i + 1], desired)
  {
    assert list[..i + 1] == list[..i] + [list[i]];
  }

  ghost predicate Readable(list: seq<Rule>, i: nat, desired: Rule)
    requires i <= |list|
  {
    forall j :: 0 <= j < i ==> Stays(list[j], desired) || list[j].protocol == RULE_PROTOCOL
  }

  lemma ReadableNotOccupied(list: seq<Rule>, desired: Rule)
    requires Readable(list, |list|, desired)
    ensures !Occupied(multiset(list), desired)
  {
    forall r: Rule | r in multiset(list) ensures Stays(r, desired) || r.protocol == RULE_PROTOCOL {
      assert r in list;
    }
  }

  /** One rule of the first pass. */
  method ScanOne(kernel: RuleKernel, list: seq<Rule>, i: nat, desired: Rule, fails: bool) returns (ok: bool)
    requires i < |list| && Scanned(kernel.rules, list, i, desired) && Readable(list, i, desired)
    requires desired.protocol == RULE_PROTOCOL && AllSafe(kernel.history, multiset(list), desired)
    modifies kernel
    ensures AllSafe(kernel.history, multiset(list), desired)
    ensures ok ==> Scanned(kernel.rules, list, i + 1, desired) && Readable(list, i + 1, desired)
    ensures !ok ==> Occupied(multiset(list), desired) || fails
  {
    var rule := list[i];
    ScanStep(kernel.rules, list, i, desired);
    if Stays(rule, desired) { return true; }
    if rule.protocol != RULE_PROTOCOL {
      assert rule in multiset(list);
      return false;
    }
    ScannedIsSafe(kernel.rules, list, i, desired);
    ok := kernel.RuleDel(rule, fails);
    if ok { ScannedIsSafe(kernel.rules, list, i + 1, desired); }
  }

  /** The first pass: withdraw owned rules that differ, refuse at a foreign one, collect the exact ones. */
  method Scan(kernel: RuleKernel, list: seq<Rule>, desired: Rule, fails: nat -> bool)
    returns (ok: bool, exact: seq<Rule>)
    requires kernel.rules == multiset(list) && kernel.history == [] && desired.protocol == RULE_PROTOCOL
    modifies kernel
    ensures AllSafe(kernel.history, multiset(list), desired)
    ensures ok ==> Scanned(kernel.rules, list, |list|, desired) && !Occupied(multiset(list), desired)
    ensures ok ==> Exact(exact, list, desired)
    ensures !ok ==> Occupied(multiset(list), desired) || exists i: nat :: fails(i)
  {
    exact := [];
    assert list[0..] == list && list[..0] == [];
    for i := 0 to |list|
      invariant Scanned(kernel.rules, list, i, desired) && Readable(list, i, desired)
      invariant AllSafe(kernel.history, multiset(list), desired)
      invariant Exact(exact, list[..i], desired)
    {
      ExactStep(exact, list, i, desired);
      if RuleEqual(list[i], desired) { exact := exact + [list[i]]; }
      ok := ScanOne(kernel, list, i, desired, fails(i));
      if !ok { return; }
    }
    assert list[..|list|] == list;
    ReadableNotOccupied(list, desired);
    ok := true;
  }

  /** What remains after withdrawing the duplicates `exact[1..n]`. */
  ghost predicate Thinned(s: multiset<Rule>, list: seq<Rule>, exact: seq<Rule>, n: nat, desired: Rule)
    requires 1 <= n <= |exact|
  {
    forall r :: s[r] + multiset(exact[1..n])[r] == if Stays(r, desired) then multiset(list)[r] else 0
  }

  lemma ThinStart(s: multiset<Rule>, list: seq<Rule>, exact: seq<Rule>, desired: Rule)
    requires |exact| > 0 && Scanned(s, list, |list|, desired)
    ensures Thinned(s, list, exact, 1, desired)
  {
    assert list[..|list|] == list && list[|list|..] == [] && exact[1..1] == [];
  }

  lemma ThinStep(s: multiset<Rule>, list: seq<Rule>, exact: seq<Rule>, n: nat, desired: Rule)
    requires 1 <= n < |exact| && Thinned(s, list, exact, n, desired) && Exact(exact, list, desired)
    ensures Thinned(s - multiset{exact[n]}, list, exact, n + 1, desired)
  {
    var x := exact[n];
    assert exact == exact[..1] + exact[1..n] + [x] + exact[n + 1..];
    assert exact[1..n + 1] == exact[1..n] + [x];
    assert x in multiset(exact);
    assert RuleEqual(x, desired);
    assert s[x] >= 1;
  }

  lemma ThinnedIsSafe(s: multiset<Rule>, list: seq<Rule>, exact: seq<Rule>, n: nat, desired: Rule)
    requires 1 <= n <= |exact| && Thinned(s, list, exact, n, desired) && desired.protocol == RULE_PROTOCOL
    requires Exact(exact, list, desired)
    requires !Occupied(multiset(list), desired)
    ensures Safe(s, multiset(list), desired)
  {
    assert exact == [exact[0]] + exact[1..n] + exact[n..];
    assert exact[0] in multiset(exact);
    assert s[exact[0]] > 0;
    assert exact[0] in s;
    forall r: Rule | r.priority != desired.priority || r.protocol != RULE_PROTOCOL ensures s[r] == multiset(list)[r] {
      assert multiset(exact)[r] == 0;
      assert multiset(exact[1..n])[r] == 0;
      if !Stays(r, desired) { assert r !in multiset(list); }
    }
  }

  lemma ThinnedSettles(s: multiset<Rule>, list: seq<Rule>, exact: seq<Rule>, desired: Rule)
    requires 1 <= |exact| && Thinned(s, list, exact, |exact|, desired)
    requires Exact(exact, list, desired)
    ensures Settled(s, multiset(list), desired)
  {
    var e := exact[0];
    assert exact == [e] + exact[1..];
    assert exact[1..|exact|] == exact[1..];
    assert e in multiset(exact);
    forall r: Rule | r.priority == desired.priority ensures s[r] == if r == e then 1 else 0 {}
    forall r: Rule | r.priority != desired.priority ensures s[r] == multiset(list)[r] {
      assert multiset(exact)[r] == 0;
    }
  }

  /** Withdraws one duplicate. */
  method DropOne(kernel: RuleKernel, list: seq<Rule>, exact: seq<Rule>, i: nat, desired: Rule, fails: bool)
    returns (ok: bool)
    requires 1 <= i < |exact| && desired.protocol == RULE_PROTOCOL && !Occupied(multiset(list), desired)
    requires Thinned(kernel.rules, list, exact, i, desired) && Exact(exact, list, desired)
    requires AllSafe(kernel.history, multiset(list), desired)
    modifies kernel
    ensures AllSafe(kernel.history, multiset(list), desired)
    ensures ok == !fails && (ok ==> Thinned(kernel.rules, list, exact, i + 1, desired))
  {
    ThinStep(kernel.rules, list, exact, i, desired);
    ghost var after := if fails then kernel.rules else kernel.rules - multiset{exact[i]};
    ThinnedIsSafe(after, list, exact, if fails then i else i + 1, desired);
    ok := kernel.RuleDel(exact[i], fails);
  }

  method DropDuplicates(kernel: RuleKernel, list: seq<Rule>, exact: seq<Rule>, desired: Rule, fails: nat -> bool)
    returns (ok: bool)
    requires |exact| > 0 && desired.protocol == RULE_PROTOCOL && !Occupied(multiset(list), desired)
    requires Scanned(kernel.rules, list, |list|, desired)
    requires Exact(exact, list, desired)
    requires AllSafe(kernel.history, multiset(list), desired)
    modifies kernel
    ensures AllSafe(kernel.history, multiset(list), desired)
    ensures ok ==> Settled(kernel.rules, multiset(list), desired)
    ensures !ok ==> exists i: nat :: fails(i)
  {
    ThinStart(kernel.rules, list, exact, desired);
    for i := 1 to |exact|
      invariant Thinned(kernel.rules, list, exact, i, desired)
      invariant AllSafe(kernel.history, multiset(list), desired)
    {
      ok := DropOne(kernel, list, exact, i, desired, fails(i));
      if !ok { return; }
    }
    ThinnedSettles(kernel.rules, list, exact, desired);
    ok := true;
  }

  /** One reconciliation of a tunnel's rule; `listing` is the kernel's answer to the rule query. Every state
      on the way is safe; success leaves exactly the tunnel's rule at its priority; without kernel errors it
      succeeds unless a foreign rule holds the priority. */
  method ReconcileRule(kernel: RuleKernel, t: Tunnel, listing: Option<seq<Rule>>,
                       scanFails: nat -> bool, dropFails: nat -> bool, addFails: bool)
    returns (ok: bool)
    requires listing.Some? ==> kernel.rules == multiset(listing.value)
    requires kernel.history == []
    modifies kernel
    ensures AllSafe(kernel.history, old(kernel.rules), MarkRule(t))
    ensures ok ==> Settled(kernel.rules, old(kernel.rules), MarkRule(t)) && SendsOwn(kernel.rules, t)
    ensures ok ==> !Occupied(old(kernel.rules), MarkRule(t))
    ensures listing.None? ==> !ok
    ensures listing.Some? && !ok ==>
      Occupied(old(kernel.rules), MarkRule(t)) || addFails || exists i: nat :: scanFails(i) || dropFails(i)
  {
    if listing.None? { return false; }
    var list, desired := listing.value, MarkRule(t);
    var exact: seq<Rule>;
    ok, exact := Scan(kernel, list, desired, scanFails);
    if !ok { return; }
    if |exact| > 0 {
      ok := DropDuplicates(kernel, list, exact, desired, dropFails);
      if ok { SettledSends(kernel.rules, multiset(list), t); }
      return;
    }
    assert list[..|list|] == list && list[|list|..] == [];
    forall e | RuleEqual(e, desired) ensures e !in multiset(list) { assert multiset(exact)[e] == 0; }
    ghost var before := kernel.rules;
    ok := kernel.RuleAdd(desired, addFails);
    assert Safe(kernel.rules, multiset(list), desired) by {
      forall r: Rule | r.priority != desired.priority || r.protocol != RULE_PROTOCOL
        ensures before[r] == multiset(list)[r]
      {
        if !Stays(r, desired) { assert r !in multiset(list); }
      }
    }
    if ok {
      assert RuleEqual(desired, desired);
      assert forall r: Rule :: r.priority == desired.priority ==> kernel.rules[r] == if r == desired then 1 else 0;
      SettledSends(kernel.rules, multiset(list), t);
    }
  }
}
