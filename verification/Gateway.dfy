/** The gateway compiler: client/destination/interface tuples become ordered first-match rule chains. */
module Gateway {
  import opened Results
  import opened Ordering
  import opened Ipv4
  import EgressGuard

  /** A configured prefix after text parsing. */
  datatype RawPrefix = NotIPv4 | Prefix4(addr: nat, bits: nat)

  ghost predicate Parsed(p: RawPrefix) { p.Prefix4? ==> p.addr < SPACE && p.bits <= 32 }

  datatype Tunnel = Tunnel(iface: string, destinations: seq<RawPrefix>)
  datatype Policy = Policy(clients: seq<RawPrefix>, tunnels: seq<Tunnel>)

  ghost predicate ParsedPolicy(policy: Policy) {
    && (forall i :: 0 <= i < |policy.clients| ==> Parsed(policy.clients[i]))
    && (forall i :: 0 <= i < |policy.tunnels| ==> ParsedTunnel(policy.tunnels[i]))
  }

  ghost predicate ParsedTunnel(t: Tunnel) {
    forall j :: 0 <= j < |t.destinations| ==> Parsed(t.destinations[j])
  }

  /** The largest multiple of `w` up to `x`. */
  function RoundDown(x: nat, w: nat): (r: nat)
    requires w > 0
    ensures r <= x < r + w && r % w == 0
  {
    var q := x / w;
    assert x == w * q + x % w;
    MultipleMod(q, w);
    w * q
  }

  /** The address agrees with the configured prefix on its leading bits. */
  ghost predicate Holds(p: RawPrefix, x: int) {
    p.Prefix4? && p.bits <= 32 && x / Pow2(32 - p.bits) == p.addr / Pow2(32 - p.bits)
  }

  /** The prefix with its host bits cleared: the aligned block of its size that holds its address. */
  function Masked(p: RawPrefix): (b: Block)
    requires p.Prefix4? && p.bits <= 32
    ensures b.size == 32 - p.bits && b.low % Pow2(b.size) == 0 && Covers(b, p.addr)
  {
    Block(RoundDown(p.addr, Pow2(32 - p.bits)), 32 - p.bits)
  }

  lemma MaskedAligned(p: RawPrefix)
    requires Parsed(p) && p.Prefix4?
    ensures Aligned(Masked(p)) && Covers(Masked(p), p.addr)
  {
    var b, w := Masked(p), Pow2(32 - p.bits);
    Pow2Space();
    Pow2Monotone(b.size, 32);
    MultiplesApart(b.low, SPACE, w);
  }

  /** A canonical prefix covers exactly the addresses that agree with the configured text on its leading bits. */
  lemma MaskedCovers(p: RawPrefix, x: int)
    requires p.Prefix4? && p.bits <= 32
    ensures Covers(Masked(p), x) <==> Holds(p, x)
  {
    var b := Masked(p);
    var w := Pow2(b.size);
    QuotientWithin(b.low, p.addr, w);
    if Covers(b, x) { QuotientWithin(b.low, x, w); }
    if Holds(p, x) { SameQuotient(b.low, x, w); }
  }

  /** netip's overlap test: equal once both are cut to the shorter prefix. */
  predicate Overlaps(a: Block, b: Block) {
    var w := Pow2(if a.size >= b.size then a.size else b.size);
    a.low / w == b.low / w
  }

  /** Two prefixes overlap exactly when they share an address. */
  lemma OverlapsExact(a: Block, b: Block)
    requires Aligned(a) && Aligned(b)
    ensures Overlaps(a, b) <==> exists x :: Covers(a, x) && Covers(b, x)
  {
    if a.size >= b.size { OverlapsNested(a, b); } else { OverlapsNested(b, a); }
  }

  lemma OverlapsNested(a: Block, b: Block)
    requires Aligned(a) && Aligned(b) && a.size >= b.size
    ensures a.low / Pow2(a.size) == b.low / Pow2(a.size) <==> exists x :: Covers(a, x) && Covers(b, x)
  {
    var w := Pow2(a.size);
    if a.low / w == b.low / w {
      SameQuotient(a.low, b.low, w);
      assert Covers(a, b.low) && Covers(b, b.low);
    }
    if x :| Covers(a, x) && Covers(b, x) {
      Laminar(b, a, x);
      QuotientWithin(a.low, b.low, w);
    }
  }

  lemma SameQuotient(base: int, x: int, w: int)
    requires w > 0 && base % w == 0 && x / w == base / w
    ensures base <= x < base + w
  {
    assert base == w * (base / w) && x == w * (x / w) + x % w;
  }

  lemma QuotientWithin(base: int, x: int, w: int)
    requires w > 0 && base % w == 0 && base <= x < base + w
    ensures x / w == base / w
  {
    var d := x / w - base / w;
    Distribute(w, x / w, base / w);
    assert w * d == x - x % w - base;
    ZeroMultiple(w, d);
  }

  // ---- packets and chains ----

  datatype Packet = Packet(src: int, dst: int, in_: string, out: string, established: bool, tcpSyn: bool)

  datatype Rule =
    | AcceptForward(client: Block, dest: Block, iface: string)
    | AcceptReturn(client: Block, dest: Block, iface: string)
    | DropFrom(client: Block)
    | DropTo(client: Block)
    | DropOwned(dest: Block, iface: string)

  /** The translation rule and the segment-size clamp carry the same tuple. */
  datatype TupleRule = TupleRule(client: Block, dest: Block, iface: string)

  datatype Verdict = Accept | Drop | Continue

  ghost predicate Matches(r: Rule, p: Packet) {
    match r
    case AcceptForward(c, d, i) => Covers(c, p.src) && Covers(d, p.dst) && p.out == i
    case AcceptReturn(c, d, i) => Covers(d, p.src) && Covers(c, p.dst) && p.in_ == i && p.established
    case DropFrom(c) => Covers(c, p.src)
    case DropTo(c) => Covers(c, p.dst)
    case DropOwned(d, i) => Covers(d, p.dst) && p.out == i
  }

  predicate IsAccept(r: Rule) { r.AcceptForward? || r.AcceptReturn? }

  /** First-match evaluation of the filter chain. */
  ghost function Evaluate(rules: seq<Rule>, p: Packet): Verdict {
    if rules == [] then Continue
    else if Matches(rules[0], p) then (if IsAccept(rules[0]) then Accept else Drop)
    else Evaluate(rules[1..], p)
  }

  ghost predicate Translated(rules: seq<TupleRule>, p: Packet) {
    exists r :: r in rules && Covers(r.client, p.src) && Covers(r.dest, p.dst) && p.out == r.iface
  }

  ghost predicate Clamped(rules: seq<TupleRule>, p: Packet) { p.tcpSyn && Translated(rules, p) }

  ghost predicate AnyMatch(rules: seq<Rule>, p: Packet) {
    exists r :: r in rules && Matches(r, p)
  }

  lemma {:induction false} EvaluateUniform(rules: seq<Rule>, p: Packet, accept: bool)
    requires forall r :: r in rules ==> IsAccept(r) == accept
    ensures Evaluate(rules, p) == if AnyMatch(rules, p) then (if accept then Accept else Drop) else Continue
    decreases |rules|
  {
    if rules != [] {
      assert rules[0] in rules;
      assert forall r :: r in rules <==> r == rules[0] || r in rules[1..] by {
        assert rules == [rules[0]] + rules[1..];
      }
      EvaluateUniform(rules[1..], p, accept);
    }
  }

  lemma {:induction false} EvaluateConcat(first: seq<Rule>, second: seq<Rule>, p: Packet)
    ensures Evaluate(first + second, p) ==
      if Evaluate(first, p) == Continue then Evaluate(second, p) else Evaluate(first, p)
    decreases |first|
  {
    if first == [] {
      assert first + second == second;
    } else {
      assert (first + second)[1..] == first[1..] + second;
      EvaluateConcat(first[1..], second, p);
    }
  }

  // ---- the declarative policy ----

  /** `x` agrees with one of the prefixes on its leading bits. */
  ghost predicate Listed(raw: seq<RawPrefix>, x: int) { exists c :: c in raw && Holds(c, x) }

  ghost predicate Client(policy: Policy, x: int) { Listed(policy.clients, x) }

  /** `x` is a destination configured on the tunnel of interface `iface`. */
  ghost predicate Owned(policy: Policy, x: int, iface: string) {
    exists t :: t in policy.tunnels && t.iface == iface && Listed(t.destinations, x)
  }

  ghost predicate ForwardTuple(policy: Policy, p: Packet) { Client(policy, p.src) && Owned(policy, p.dst, p.out) }

  ghost predicate ReturnTuple(policy: Policy, p: Packet) {
    Client(policy, p.dst) && Owned(policy, p.src, p.in_) && p.established
  }

  ghost predicate Touches(policy: Policy, p: Packet) {
    Client(policy, p.src) || Client(policy, p.dst) || Owned(policy, p.dst, p.out)
  }

  /** What the policy says about a packet, without rules or order. */
  ghost function Intended(policy: Policy, p: Packet): Verdict {
    if ForwardTuple(policy, p) || ReturnTuple(policy, p) then Accept
    else if Touches(policy, p) then Drop
    else Continue
  }

  ghost predicate AllIPv4(raw: seq<RawPrefix>) { forall i :: 0 <= i < |raw| ==> raw[i].Prefix4? }

  /** The policies that compile. */
  ghost predicate Acceptable(policy: Policy) {
    && AllIPv4(policy.clients)
    && (forall i :: 0 <= i < |policy.tunnels| ==>
          EgressGuard.ValidInterface(policy.tunnels[i].iface) && AllIPv4(policy.tunnels[i].destinations))
    && (forall i, j :: 0 <= i < j < |policy.tunnels| ==> policy.tunnels[i].iface != policy.tunnels[j].iface)
    && (forall x, i1, i2 :: Owned(policy, x, i1) && Owned(policy, x, i2) ==> i1 == i2)
  }

  // ---- canonical prefixes ----

  ghost predicate Canonical(blocks: seq<Block>, raw: seq<RawPrefix>) {
    forall b :: b in blocks <==> exists c :: c in raw && c.Prefix4? && c.bits <= 32 && b == Masked(c)
  }

  ghost predicate Covered(blocks: seq<Block>, x: int) { exists b :: b in blocks && Covers(b, x) }

  /** The blocks hold exactly the addresses that agree with some listed prefix on its leading bits. */
  ghost predicate CoversListed(blocks: seq<Block>, raw: seq<RawPrefix>) {
    forall x :: Covered(blocks, x) <==> Listed(raw, x)
  }

  lemma CanonicalCovers(blocks: seq<Block>, raw: seq<RawPrefix>)
    requires Canonical(blocks, raw)
    ensures CoversListed(blocks, raw)
  {
    forall x ensures Covered(blocks, x) <==> Listed(raw, x) {
      if c :| c in raw && Holds(c, x) {
        MaskedCovers(c, x);
        assert Masked(c) in blocks;
      }
      if b :| b in blocks && Covers(b, x) {
        var c :| c in raw && c.Prefix4? && c.bits <= 32 && b == Masked(c);
        MaskedCovers(c, x);
      }
    }
  }

  ghost predicate AllParsed(raw: seq<RawPrefix>) { forall i :: 0 <= i < |raw| ==> Parsed(raw[i]) }

  /** Each masked prefix once, in the order of the text where that order is total. */
  method CanonicalPrefixes(raw: seq<RawPrefix>, prefixLess: (Block, Block) -> bool) returns (r: Result<seq<Block>>)
    requires AllParsed(raw)
    ensures r.Ok? <==> AllIPv4(raw)
    ensures r.Ok? ==> Canonical(r.value, raw) && Distinct(r.value) && CoversListed(r.value, raw)
    ensures r.Ok? && StrictTotal(prefixLess) ==> Ascending(r.value, prefixLess)
  {
    var found: set<Block> := {};
    for i := 0 to |raw|
      invariant AllIPv4(raw[..i])
      invariant forall b :: b in found <==> exists c :: c in raw[..i] && c.Prefix4? && c.bits <= 32 && b == Masked(c)
    {
      assert raw[..i + 1] == raw[..i] + [raw[i]];
      if raw[i].NotIPv4? { return Err; }
      found := found + {Masked(raw[i])};
    }
    assert raw[..|raw|] == raw;
    var blocks: seq<Block> := [];
    var todo := found;
    while todo != {}
      invariant todo <= found && Distinct(blocks) && forall b :: b in blocks <==> b in found && b !in todo
      decreases todo
    {
      var b :| b in todo;
      blocks, todo := blocks + [b], todo - {b};
    }
    SameMembers(SortBy(blocks, prefixLess), blocks);
    CanonicalCovers(SortBy(blocks, prefixLess), raw);
    DistinctPermutation(blocks, SortBy(blocks, prefixLess));
    if StrictTotal(prefixLess) { SortByAscending(blocks, prefixLess); }
    return Ok(SortBy(blocks, prefixLess));
  }

  // ---- one tunnel ----

  datatype Owner = Owner(prefix: Block, iface: string)

  ghost predicate Compatible(owners: seq<Owner>) {
    forall a, b :: a in owners && b in owners && a.iface != b.iface ==> !Overlaps(a.prefix, b.prefix)
  }

  lemma OverlapsSymmetric(a: Block, b: Block)
    ensures Overlaps(a, b) <==> Overlaps(b, a)
  {}

  method HasConflict(owners: seq<Owner>, prefix: Block, iface: string) returns (b: bool)
    ensures b <==> exists o :: o in owners && o.iface != iface && Overlaps(o.prefix, prefix)
  {
    for j := 0 to |owners|
      invariant forall q :: 0 <= q < j ==> owners[q].iface == iface || !Overlaps(owners[q].prefix, prefix)
    {
      if owners[j].iface != iface && Overlaps(owners[j].prefix, prefix) {
        assert owners[j] in owners;
        return true;
      }
    }
    return false;
  }

  lemma ClaimKeepsCompatible(owners: seq<Owner>, prefix: Block, iface: string)
    requires Compatible(owners)
    requires !exists o :: o in owners && o.iface != iface && Overlaps(o.prefix, prefix)
    ensures Compatible(owners + [Owner(prefix, iface)])
  {
    var more := owners + [Owner(prefix, iface)];
    forall a, b | a in more && b in more && a.iface != b.iface ensures !Overlaps(a.prefix, b.prefix) {
      if a in owners && b !in owners {
        assert b == Owner(prefix, iface);
      } else if a !in owners {
        assert a == Owner(prefix, iface) && b in owners;
        OverlapsSymmetric(a.prefix, b.prefix);
      }
    }
  }

  /** `more` holds `owners` and the given destinations of `iface`. */
  ghost predicate Claimed(more: seq<Owner>, owners: seq<Owner>, destinations: seq<Block>, iface: string) {
    forall o :: o in more <==> o in owners || (o.iface == iface && o.prefix in destinations)
  }

  /** Claims the tunnel's destinations, or fails when one overlaps another tunnel's. */
  method ClaimDestinations(owners: seq<Owner>, destinations: seq<Block>, iface: string) returns (r: Result<seq<Owner>>)
    requires Compatible(owners)
    ensures r.Ok? ==> Compatible(r.value) && Claimed(r.value, owners, destinations, iface)
    ensures r.Err? ==> exists d, o :: d in destinations && o in owners && o.iface != iface && Overlaps(o.prefix, d)
  {
    var claimed := owners;
    for i := 0 to |destinations|
      invariant Compatible(claimed) && Claimed(claimed, owners, destinations[..i], iface)
    {
      var prefix := destinations[i];
      assert destinations[..i + 1] == destinations[..i] + [prefix];
      var conflict := HasConflict(claimed, prefix, iface);
      if conflict {
        assert prefix in destinations;
        return Err;
      }
      ClaimKeepsCompatible(claimed, prefix, iface);
      claimed := claimed + [Owner(prefix, iface)];
    }
    assert destinations[..|destinations|] == destinations;
    return Ok(claimed);
  }

  /** The accept rules of all client/owner pairs. */
  ghost predicate AcceptsFor(rules: seq<Rule>, clients: seq<Block>, owners: seq<Owner>) {
    forall r :: r in rules <==>
      IsAccept(r) && r.client in clients && Owner(r.dest, r.iface) in owners
  }

  ghost predicate TuplesFor(rules: seq<TupleRule>, clients: seq<Block>, owners: seq<Owner>) {
    forall r :: r in rules <==> r.client in clients && Owner(r.dest, r.iface) in owners
  }

  ghost predicate DropsFor(rules: seq<Rule>, owners: seq<Owner>) {
    forall r :: r in rules <==> r.DropOwned? && Owner(r.dest, r.iface) in owners
  }

  /** The rules of one client towards every destination of one tunnel. */
  method EmitClient(client: Block, destinations: seq<Block>, iface: string)
    returns (accepts: seq<Rule>, tuples: seq<TupleRule>)
    ensures forall r :: r in accepts <==>
      IsAccept(r) && r.client == client && r.dest in destinations && r.iface == iface
    ensures forall r :: r in tuples <==> r.client == client && r.dest in destinations && r.iface == iface
  {
    accepts, tuples := [], [];
    for i := 0 to |destinations|
      invariant forall r :: r in accepts <==>
        IsAccept(r) && r.client == client && r.dest in destinations[..i] && r.iface == iface
      invariant forall r :: r in tuples <==> r.client == client && r.dest in destinations[..i] && r.iface == iface
    {
      var d := destinations[i];
      assert destinations[..i + 1] == destinations[..i] + [d];
      accepts := accepts + [AcceptForward(client, d, iface), AcceptReturn(client, d, iface)];
      tuples := tuples + [TupleRule(client, d, iface)];
    }
    assert destinations[..|destinations|] == destinations;
  }

  method EmitTunnel(clients: seq<Block>, destinations: seq<Block>, iface: string)
    returns (accepts: seq<Rule>, tuples: seq<TupleRule>)
    ensures forall r :: r in accepts <==>
      IsAccept(r) && r.client in clients && r.dest in destinations && r.iface == iface
    ensures forall r :: r in tuples <==> r.client in clients && r.dest in destinations && r.iface == iface
  {
    accepts, tuples := [], [];
    for i := 0 to |clients|
      invariant forall r :: r in accepts <==>
        IsAccept(r) && r.client in clients[..i] && r.dest in destinations && r.iface == iface
      invariant forall r :: r in tuples <==> r.client in clients[..i] && r.dest in destinations && r.iface == iface
    {
      assert clients[..i + 1] == clients[..i] + [clients[i]];
      var a, t := EmitClient(clients[i], destinations, iface);
      accepts, tuples := accepts + a, tuples + t;
    }
    assert clients[..|clients|] == clients;
  }

  method EmitDrops(destinations: seq<Block>, iface: string) returns (drops: seq<Rule>)
    ensures forall r :: r in drops <==> r.DropOwned? && r.dest in destinations && r.iface == iface
  {
    drops := [];
    for i := 0 to |destinations|
      invariant forall r :: r in drops <==> r.DropOwned? && r.dest in destinations[..i] && r.iface == iface
    {
      assert destinations[..i + 1] == destinations[..i] + [destinations[i]];
      drops := drops + [DropOwned(destinations[i], iface)];
    }
    assert destinations[..|destinations|] == destinations;
  }

  method ClientDrops(clients: seq<Block>) returns (drops: seq<Rule>)
    ensures forall r :: r in drops <==> (r.DropFrom? || r.DropTo?) && r.client in clients
  {
    drops := [];
    for i := 0 to |clients|
      invariant forall r :: r in drops <==> (r.DropFrom? || r.DropTo?) && r.client in clients[..i]
    {
      assert clients[..i + 1] == clients[..i] + [clients[i]];
      drops := drops + [DropFrom(clients[i]), DropTo(clients[i])];
    }
    assert clients[..|clients|] == clients;
  }

  // ---- the whole policy ----

  /** The lists a compilation has accumulated. */
  datatype Chains = Chains(owners: seq<Owner>, accepts: seq<Rule>, tuples: seq<TupleRule>, drops: seq<Rule>)

  /** `o` is a destination of one of the tunnels. */
  ghost predicate Configured(o: Owner, tunnels: seq<Tunnel>) {
    exists t, d :: t in tunnels && t.iface == o.iface && d in t.destinations && d.Prefix4? && d.bits <= 32 &&
      o.prefix == Masked(d)
  }

  ghost predicate Built(c: Chains, clients: seq<Block>, tunnels: seq<Tunnel>) {
    && (forall o :: o in c.owners <==> Configured(o, tunnels))
    && Compatible(c.owners)
    && AcceptsFor(c.accepts, clients, c.owners)
    && TuplesFor(c.tuples, clients, c.owners)
    && DropsFor(c.drops, c.owners)
  }

  ghost predicate TunnelOk(t: Tunnel) { EgressGuard.ValidInterface(t.iface) && AllIPv4(t.destinations) }

  lemma ConfiguredStep(o: Owner, tunnels: seq<Tunnel>, t: Tunnel, destinations: seq<Block>)
    requires Canonical(destinations, t.destinations)
    ensures Configured(o, tunnels + [t]) <==> Configured(o, tunnels) || (o.iface == t.iface && o.prefix in destinations)
  {
    var more := tunnels + [t];
    if Configured(o, more) {
      var u, d :| u in more && u.iface == o.iface && d in u.destinations && d.Prefix4? && d.bits <= 32 &&
        o.prefix == Masked(d);
      if u in tunnels { assert Configured(o, tunnels); }
    }
    if Configured(o, tunnels) {
      var u, d :| u in tunnels && u.iface == o.iface && d in u.destinations && d.Prefix4? && d.bits <= 32 &&
        o.prefix == Masked(d);
      assert u in more;
    }
    if o.iface == t.iface && o.prefix in destinations { assert t in more; }
  }

  ghost predicate Clash(tunnels: seq<Tunnel>, t: Tunnel) {
    exists o, q :: Configured(o, tunnels) && Configured(q, [t]) && o.iface != q.iface && Overlaps(o.prefix, q.prefix)
  }

  method AddTunnel(c: Chains, clients: seq<Block>, ghost tunnels: seq<Tunnel>, t: Tunnel,
                   prefixLess: (Block, Block) -> bool)
    returns (r: Result<Chains>)
    requires Built(c, clients, tunnels) && ParsedTunnel(t)
    ensures r.Ok? ==> TunnelOk(t) && Built(r.value, clients, tunnels + [t])
    ensures r.Err? ==> !TunnelOk(t) || Clash(tunnels, t)
  {
    if !EgressGuard.ValidInterface(t.iface) { return Err; }
    var destinations := CanonicalPrefixes(t.destinations, prefixLess);
    if destinations.Err? { return Err; }
    var claim := ClaimDestinations(c.owners, destinations.value, t.iface);
    if claim.Err? {
      var d, o :| d in destinations.value && o in c.owners && o.iface != t.iface && Overlaps(o.prefix, d);
      ConfiguredStep(Owner(d, t.iface), [], t, destinations.value);
      assert [] + [t] == [t];
      assert Configured(Owner(d, t.iface), [t]);
      return Err;
    }
    forall o ensures Configured(o, tunnels + [t]) <==> o in claim.value {
      ConfiguredStep(o, tunnels, t, destinations.value);
    }
    var accepts, tuples := EmitTunnel(clients, destinations.value, t.iface);
    var drops := EmitDrops(destinations.value, t.iface);
    return Ok(Chains(claim.value, c.accepts + accepts, c.tuples + tuples, c.drops + drops));
  }

  ghost predicate Distinctly(tunnels: seq<Tunnel>) {
    forall i, j :: 0 <= i < j < |tunnels| ==> tunnels[i].iface != tunnels[j].iface
  }

  predicate ByInterface(a: Tunnel, b: Tunnel) { TextLess(a.iface, b.iface) }

  lemma OwnedIsConfigured(policy: Policy, tunnels: seq<Tunnel>, x: int, iface: string)
    requires multiset(policy.tunnels) == multiset(tunnels)
    ensures Owned(policy, x, iface) <==> exists o :: Configured(o, tunnels) && o.iface == iface && Covers(o.prefix, x)
  {
    SameMembers(policy.tunnels, tunnels);
    if Owned(policy, x, iface) {
      var t :| t in policy.tunnels && t.iface == iface && Listed(t.destinations, x);
      var d :| d in t.destinations && Holds(d, x);
      MaskedCovers(d, x);
      assert Configured(Owner(Masked(d), iface), tunnels);
    }
    if o :| Configured(o, tunnels) && o.iface == iface && Covers(o.prefix, x) {
      var t, d :| t in tunnels && t.iface == o.iface && d in t.destinations && d.Prefix4? && d.bits <= 32 &&
        o.prefix == Masked(d);
      MaskedCovers(d, x);
      assert t in policy.tunnels;
    }
  }

  lemma ConfiguredAligned(o: Owner, tunnels: seq<Tunnel>)
    requires Configured(o, tunnels) && forall t :: t in tunnels ==> ParsedTunnel(t)
    ensures Aligned(o.prefix)
  {
    var t, d :| t in tunnels && t.iface == o.iface && d in t.destinations && d.Prefix4? && d.bits <= 32 &&
      o.prefix == Masked(d);
    MaskedAligned(d);
  }

  lemma ClashIsUnacceptable(policy: Policy, sorted: seq<Tunnel>, i: nat)
    requires multiset(policy.tunnels) == multiset(sorted) && i < |sorted|
    requires forall t :: t in sorted ==> ParsedTunnel(t)
    requires Clash(sorted[..i], sorted[i])
    ensures !Acceptable(policy)
  {
    var o, q :| Configured(o, sorted[..i]) && Configured(q, [sorted[i]]) && o.iface != q.iface &&
      Overlaps(o.prefix, q.prefix);
    ConfiguredMore(o, sorted[..i], sorted);
    ConfiguredMore(q, [sorted[i]], sorted);
    ConfiguredAligned(o, sorted);
    ConfiguredAligned(q, sorted);
    OverlapsExact(o.prefix, q.prefix);
    var x :| Covers(o.prefix, x) && Covers(q.prefix, x);
    OwnedIsConfigured(policy, sorted, x, o.iface);
    OwnedIsConfigured(policy, sorted, x, q.iface);
  }

  lemma ConfiguredMore(o: Owner, some: seq<Tunnel>, all: seq<Tunnel>)
    requires Configured(o, some) && forall t :: t in some ==> t in all
    ensures Configured(o, all)
  {
    var t, d :| t in some && t.iface == o.iface && d in t.destinations && d.Prefix4? && d.bits <= 32 &&
      o.prefix == Masked(d);
    assert t in all;
  }

  lemma CompatibleIsUnambiguous(policy: Policy, sorted: seq<Tunnel>, owners: seq<Owner>, x: int, i1: string, i2: string)
    requires multiset(policy.tunnels) == multiset(sorted) && Compatible(owners)
    requires forall t :: t in sorted ==> ParsedTunnel(t)
    requires forall o :: o in owners <==> Configured(o, sorted)
    requires Owned(policy, x, i1) && Owned(policy, x, i2)
    ensures i1 == i2
  {
    OwnedIsConfigured(policy, sorted, x, i1);
    OwnedIsConfigured(policy, sorted, x, i2);
    var o :| Configured(o, sorted) && o.iface == i1 && Covers(o.prefix, x);
    var q :| Configured(q, sorted) && q.iface == i2 && Covers(q.prefix, x);
    ConfiguredAligned(o, sorted);
    ConfiguredAligned(q, sorted);
    OverlapsExact(o.prefix, q.prefix);
    assert o in owners && q in owners;
  }

  lemma SortedAcceptable(policy: Policy, sorted: seq<Tunnel>, owners: seq<Owner>)
    requires multiset(policy.tunnels) == multiset(sorted) && Compatible(owners) && AllIPv4(policy.clients)
    requires forall t :: t in sorted ==> ParsedTunnel(t) && TunnelOk(t)
    requires Distinctly(sorted)
    requires forall o :: o in owners <==> Configured(o, sorted)
    ensures Acceptable(policy)
  {
    SameMembers(policy.tunnels, sorted);
    forall i | 0 <= i < |policy.tunnels| ensures TunnelOk(policy.tunnels[i]) { assert policy.tunnels[i] in sorted; }
    forall i, j | 0 <= i < j < |policy.tunnels| ensures policy.tunnels[i].iface != policy.tunnels[j].iface {
      var a, b := PermutedPair(policy.tunnels, sorted, i, j);
      assert a < b ==> sorted[a].iface != sorted[b].iface;
      assert b < a ==> sorted[b].iface != sorted[a].iface;
    }
    forall x, i1, i2 | Owned(policy, x, i1) && Owned(policy, x, i2) ensures i1 == i2 {
      CompatibleIsUnambiguous(policy, sorted, owners, x, i1, i2);
    }
  }

  lemma DuplicateUnacceptable(policy: Policy, sorted: seq<Tunnel>, i: nat, j: nat)
    requires multiset(policy.tunnels) == multiset(sorted) && i < j < |sorted| && sorted[i].iface == sorted[j].iface
    ensures !Acceptable(policy)
  {
    var a, b := PermutedPair(sorted, policy.tunnels, i, j);
    assert policy.tunnels[a].iface == policy.tunnels[b].iface;
  }

  lemma BadTunnelUnacceptable(policy: Policy, t: Tunnel)
    requires t in policy.tunnels && !TunnelOk(t)
    ensures !Acceptable(policy)
  {}

  method CompileTunnels(policy: Policy, clients: seq<Block>, sorted: seq<Tunnel>, prefixLess: (Block, Block) -> bool)
    returns (r: Result<Chains>)
    requires multiset(policy.tunnels) == multiset(sorted)
    requires forall t :: t in sorted ==> ParsedTunnel(t)
    ensures r.Ok? ==> Built(r.value, clients, sorted) && Distinctly(sorted) && forall t :: t in sorted ==> TunnelOk(t)
    ensures r.Err? ==> !Acceptable(policy)
  {
    SameMembers(policy.tunnels, sorted);
    var chains := Chains([], [], [], []);
    var seen: set<string> := {};
    for i := 0 to |sorted|
      invariant Built(chains, clients, sorted[..i]) && Distinctly(sorted[..i])
      invariant forall j :: 0 <= j < i ==> TunnelOk(sorted[j])
      invariant forall s :: s in seen <==> exists j :: 0 <= j < i && sorted[j].iface == s
    {
      var t := sorted[i];
      assert sorted[..i + 1] == sorted[..i] + [t];
      if t.iface in seen {
        var j :| 0 <= j < i && sorted[j].iface == t.iface;
        DuplicateUnacceptable(policy, sorted, j, i);
        return Err;
      }
      seen := seen + {t.iface};
      var next := AddTunnel(chains, clients, sorted[..i], t, prefixLess);
      if next.Err? {
        if TunnelOk(t) { ClashIsUnacceptable(policy, sorted, i); } else { BadTunnelUnacceptable(policy, t); }
        return Err;
      }
      chains := next.value;
    }
    assert sorted[..|sorted|] == sorted;
    return Ok(chains);
  }

  // ---- meaning ----

  lemma ClientIsListed(policy: Policy, clients: seq<Block>, x: int)
    requires CoversListed(clients, policy.clients)
    ensures Client(policy, x) <==> exists b :: b in clients && Covers(b, x)
  {
    assert Covered(clients, x) <==> Listed(policy.clients, x);
  }

  lemma OwnedIsListed(policy: Policy, sorted: seq<Tunnel>, owners: seq<Owner>, x: int, iface: string)
    requires multiset(policy.tunnels) == multiset(sorted)
    requires forall o :: o in owners <==> Configured(o, sorted)
    ensures Owned(policy, x, iface) <==> exists o :: o in owners && o.iface == iface && Covers(o.prefix, x)
  {
    OwnedIsConfigured(policy, sorted, x, iface);
  }

  ghost predicate Facts(policy: Policy, clients: seq<Block>, owners: seq<Owner>) {
    && (forall x :: Client(policy, x) <==> exists b :: b in clients && Covers(b, x))
    && (forall x, iface :: Owned(policy, x, iface) <==>
          exists o :: o in owners && o.iface == iface && Covers(o.prefix, x))
  }

  lemma AcceptsMeaning(policy: Policy, clients: seq<Block>, owners: seq<Owner>, accepts: seq<Rule>, p: Packet)
    requires Facts(policy, clients, owners) && AcceptsFor(accepts, clients, owners)
    ensures AnyMatch(accepts, p) <==> ForwardTuple(policy, p) || ReturnTuple(policy, p)
  {
    if ForwardTuple(policy, p) {
      var b :| b in clients && Covers(b, p.src);
      var o :| o in owners && o.iface == p.out && Covers(o.prefix, p.dst);
      assert AcceptForward(b, o.prefix, o.iface) in accepts;
    }
    if ReturnTuple(policy, p) {
      var b :| b in clients && Covers(b, p.dst);
      var o :| o in owners && o.iface == p.in_ && Covers(o.prefix, p.src);
      assert AcceptReturn(b, o.prefix, o.iface) in accepts;
    }
  }

  lemma DropsMeaning(policy: Policy, clients: seq<Block>, owners: seq<Owner>, clientDrops: seq<Rule>, drops: seq<Rule>,
                     p: Packet)
    requires Facts(policy, clients, owners) && DropsFor(drops, owners)
    requires forall r :: r in clientDrops <==> (r.DropFrom? || r.DropTo?) && r.client in clients
    ensures AnyMatch(clientDrops + drops, p) <==> Touches(policy, p)
  {
    var all := clientDrops + drops;
    assert forall r :: r in all <==> r in clientDrops || r in drops;
    if b :| b in clients && Covers(b, p.src) { assert DropFrom(b) in all; }
    if b :| b in clients && Covers(b, p.dst) { assert DropTo(b) in all; }
    if o :| o in owners && o.iface == p.out && Covers(o.prefix, p.dst) { assert DropOwned(o.prefix, o.iface) in all; }
  }

  lemma FilterMeaning(policy: Policy, clients: seq<Block>, owners: seq<Owner>, accepts: seq<Rule>,
                      clientDrops: seq<Rule>, drops: seq<Rule>, p: Packet)
    requires Facts(policy, clients, owners) && AcceptsFor(accepts, clients, owners) && DropsFor(drops, owners)
    requires forall r :: r in clientDrops <==> (r.DropFrom? || r.DropTo?) && r.client in clients
    ensures Evaluate(accepts + (clientDrops + drops), p) == Intended(policy, p)
  {
    AcceptsMeaning(policy, clients, owners, accepts, p);
    DropsMeaning(policy, clients, owners, clientDrops, drops, p);
    EvaluateConcat(accepts, clientDrops + drops, p);
    EvaluateUniform(accepts, p, true);
    EvaluateUniform(clientDrops + drops, p, false);
  }

  lemma TuplesMeaning(policy: Policy, clients: seq<Block>, owners: seq<Owner>, tuples: seq<TupleRule>, p: Packet)
    requires Facts(policy, clients, owners) && TuplesFor(tuples, clients, owners)
    ensures Translated(tuples, p) <==> ForwardTuple(policy, p)
  {
    if ForwardTuple(policy, p) {
      var b :| b in clients && Covers(b, p.src);
      var o :| o in owners && o.iface == p.out && Covers(o.prefix, p.dst);
      assert TupleRule(b, o.prefix, o.iface) in tuples;
    }
    if Translated(tuples, p) {
      var r :| r in tuples && Covers(r.client, p.src) && Covers(r.dest, p.dst) && p.out == r.iface;
      assert Owner(r.dest, r.iface) in owners;
    }
  }

  datatype Ruleset = Ruleset(filter: seq<Rule>, nat_: seq<TupleRule>, mangle: seq<TupleRule>)

  /** The chains mean the policy, packet by packet. */
  ghost predicate Implements(rules: Ruleset, policy: Policy) {
    forall p: Packet ::
      && Evaluate(rules.filter, p) == Intended(policy, p)
      && (Translated(rules.nat_, p) <==> ForwardTuple(policy, p))
      && (Clamped(rules.mangle, p) <==> ForwardTuple(policy, p) && p.tcpSyn)
  }

  /** Compilation preserves meaning: it succeeds exactly for acceptable policies, and first-match
      evaluation of the filter chain gives every packet the verdict the policy intends. The three
      comparisons stand for the text orders the chains are sorted by. */
  method Compile(policy: Policy, prefixLess: (Block, Block) -> bool, ruleLess: (Rule, Rule) -> bool,
                 tupleLess: (TupleRule, TupleRule) -> bool)
    returns (r: Result<Ruleset>)
    requires ParsedPolicy(policy)
    ensures r.Ok? <==> Acceptable(policy)
    ensures r.Ok? ==> Implements(r.value, policy)
  {
    var clients := CanonicalPrefixes(policy.clients, prefixLess);
    if clients.Err? { return Err; }
    var sorted := SortBy(policy.tunnels, ByInterface);
    SameMembers(policy.tunnels, sorted);
    var chains := CompileTunnels(policy, clients.value, sorted, prefixLess);
    if chains.Err? { return Err; }
    var Chains(owners, accepts, tuples, drops) := chains.value;
    SortedAcceptable(policy, sorted, owners);
    var clientDrops := ClientDrops(clients.value);
    var filter := SortBy(accepts, ruleLess);
    SameMembers(filter, accepts);
    var sortedDrops := SortBy(drops, ruleLess);
    SameMembers(sortedDrops, drops);
    var translate := SortBy(tuples, tupleLess);
    SameMembers(translate, tuples);
    assert Facts(policy, clients.value, owners) by {
      forall x { ClientIsListed(policy, clients.value, x); }
      forall x, iface { OwnedIsListed(policy, sorted, owners, x, iface); }
    }
    forall p: Packet
      ensures Evaluate(filter + (clientDrops + sortedDrops), p) == Intended(policy, p)
      ensures Translated(translate, p) <==> ForwardTuple(policy, p)
    {
      FilterMeaning(policy, clients.value, owners, filter, clientDrops, sortedDrops, p);
      TuplesMeaning(policy, clients.value, owners, translate, p);
    }
    return Ok(Ruleset(filter + (clientDrops + sortedDrops), translate, translate));
  }

  /** Everything translated or clamped is also accepted, towards the one tunnel that owns the destination. */
  lemma TranslatedIsAccepted(policy: Policy, rules: Ruleset, p: Packet)
    requires Acceptable(policy) && Implements(rules, policy) && Translated(rules.nat_, p)
    ensures Evaluate(rules.filter, p) == Accept
    ensures forall iface :: Owned(policy, p.dst, iface) <==> iface == p.out
  {}

  ghost predicate Lists(policy: Policy, iface: string, d: RawPrefix) {
    exists t :: t in policy.tunnels && t.iface == iface && d in t.destinations
  }

  lemma OwnedFromLists(policy: Policy, policy': Policy, x: int, iface: string)
    requires forall i, d :: Lists(policy, i, d) ==> Lists(policy', i, d)
    requires Owned(policy, x, iface)
    ensures Owned(policy', x, iface)
  {
    var t :| t in policy.tunnels && t.iface == iface && Listed(t.destinations, x);
    var d :| d in t.destinations && Holds(d, x);
    assert Lists(policy, iface, d);
    assert Lists(policy', iface, d);
    var t' :| t' in policy'.tunnels && t'.iface == iface && d in t'.destinations;
  }

  /** Order and duplicates in the configuration change nothing: policies that list the same clients and the
      same destinations per interface give every packet the same verdict, translation and clamp. */
  lemma VerdictIgnoresOrder(policy: Policy, policy': Policy, rules: Ruleset, rules': Ruleset, p: Packet)
    requires forall c :: c in policy.clients <==> c in policy'.clients
    requires forall iface, d :: Lists(policy, iface, d) <==> Lists(policy', iface, d)
    requires Implements(rules, policy) && Implements(rules', policy')
    ensures Evaluate(rules.filter, p) == Evaluate(rules'.filter, p)
    ensures Translated(rules.nat_, p) <==> Translated(rules'.nat_, p)
    ensures Clamped(rules.mangle, p) <==> Clamped(rules'.mangle, p)
  {
    assert Client(policy, p.src) <==> Client(policy', p.src);
    assert Client(policy, p.dst) <==> Client(policy', p.dst);
    forall x, iface ensures Owned(policy, x, iface) <==> Owned(policy', x, iface) {
      if Owned(policy, x, iface) { OwnedFromLists(policy, policy', x, iface); }
      if Owned(policy', x, iface) { OwnedFromLists(policy', policy, x, iface); }
    }
  }
}
