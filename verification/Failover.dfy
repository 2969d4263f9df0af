/** Dialing a backend through each egress of a group in turn. */
module Failover {
  import Ordering
  import opened Options
  import opened NetAddr
  import opened AddressSelection
  import opened DialBudget

  /** The requested host: an address literal (possibly unreadable) or a name. */
  datatype Host = Literal(addr: Option<Addr>) | Name

  datatype Lookup = NoResolver | LookupFailed | Negative | Found(addrs: seq<Addr>)

  /** Everything outside the failover loop: resolvers, destination policy, selector and dials. The first
      argument of the timed answers is the egress's position in the order, the last the time it may take. */
  datatype Env = Env(
    host: Host,
    lookup: (nat, int) -> Lookup,
    lookupTime: (nat, int) -> int,
    allowed: int -> Addr -> bool,
    strategy: Strategy,
    attemptCap: int,
    sequence: nat -> nat,
    dial: nat -> Dialer)

  ghost predicate Timely(env: Env) {
    ResolvesInTime(env.lookupTime) && AllPunctual(env.dial)
  }

  predicate FamilyAllowed(a: Addr, mark: int) { mark == 0 || Unmap(a).V4? }

  /** A marked egress carries IPv4 only. */
  function FamilyCandidates(addrs: seq<Addr>, mark: int): (kept: seq<Addr>)
    ensures forall i :: 0 <= i < |kept| ==> FamilyAllowed(kept[i], mark) && kept[i] in addrs
    ensures kept == [] <==> forall i :: 0 <= i < |addrs| ==> !FamilyAllowed(addrs[i], mark)
  {
    if mark == 0 then
      assert addrs != [] ==> FamilyAllowed(addrs[0], mark);
      addrs
    else if addrs == [] then []
    else
      var front, last := FamilyCandidates(addrs[..|addrs| - 1], mark), addrs[|addrs| - 1];
      assert addrs == addrs[..|addrs| - 1] + [last];
      if FamilyAllowed(last, mark) then front + [last] else front
  }

  /** How many of the first `n` addresses the egress can carry. */
  function AllowedBefore(addrs: seq<Addr>, mark: int, n: nat): nat
    requires n <= |addrs|
  {
    if n == 0 then 0 else AllowedBefore(addrs, mark, n - 1) + if FamilyAllowed(addrs[n - 1], mark) then 1 else 0
  }

  lemma CandidatesGrow(addrs: seq<Addr>, n: nat, mark: int, kept: seq<Addr>, kept': seq<Addr>)
    requires n < |addrs|
    requires kept == FamilyCandidates(addrs[..n], mark) && kept' == FamilyCandidates(addrs[..n + 1], mark)
    ensures kept' == if FamilyAllowed(addrs[n], mark) then kept + [addrs[n]] else kept
  {
    var more := addrs[..n + 1];
    assert more[..n] == addrs[..n] && more[n] == addrs[n] && more == addrs[..n] + [addrs[n]];
  }

  lemma {:induction false} FamilyPrefix(addrs: seq<Addr>, mark: int, n: nat, k: nat)
    requires k < n <= |addrs| || k == n == 0
    ensures |FamilyCandidates(addrs[..n], mark)| == AllowedBefore(addrs, mark, n)
    ensures k < n && FamilyAllowed(addrs[k], mark) ==> AllowedBefore(addrs, mark, k) < AllowedBefore(addrs, mark, n)
    ensures k < n && FamilyAllowed(addrs[k], mark) ==>
      FamilyCandidates(addrs[..n], mark)[AllowedBefore(addrs, mark, k)] == addrs[k]
    decreases n
  {
    if n > 0 {
      FamilyPrefix(addrs, mark, n - 1, if k < n - 1 then k else 0);
      var kept, kept' := FamilyCandidates(addrs[..n - 1], mark), FamilyCandidates(addrs[..n], mark);
      CandidatesGrow(addrs, n - 1, mark, kept, kept');
    }
  }

  /** Every address the egress can carry is kept, at the position that is the number of such addresses before it,
      and nothing else is kept. */
  lemma FamilyInOrder(addrs: seq<Addr>, mark: int, k: nat)
    requires k < |addrs|
    ensures |FamilyCandidates(addrs, mark)| == AllowedBefore(addrs, mark, |addrs|)
    ensures FamilyAllowed(addrs[k], mark) ==> AllowedBefore(addrs, mark, k) < |FamilyCandidates(addrs, mark)|
    ensures FamilyAllowed(addrs[k], mark) ==> FamilyCandidates(addrs, mark)[AllowedBefore(addrs, mark, k)] == addrs[k]
  {
    FamilyPrefix(addrs, mark, |addrs|, k);
    assert addrs[..|addrs|] == addrs;
  }

  datatype Candidacy = Denied | DeniedAnswer | NoIPv4 | Unresolved | Ready(addrs: seq<Addr>)

  function Select(env: Env, i: nat, mark: int, addrs: seq<Addr>): seq<Addr> {
    Selection(env.strategy, env.attemptCap, addrs, env.allowed(mark), env.sequence(i))
  }

  /** Which addresses the `i`-th egress may dial, and why none if none. */
  function Candidates(env: Env, i: nat, mark: int, answer: Lookup): Candidacy {
    match env.host
    case Literal(None) => Denied
    case Literal(Some(a)) =>
      if !FamilyAllowed(a, mark) then NoIPv4
      else
        var selected := Select(env, i, mark, [a]);
        if selected == [] then Denied else Ready(selected)
    case Name =>
      if !answer.Found? then Unresolved
      else
        var family := FamilyCandidates(answer.addrs, mark);
        if family == [] then NoIPv4
        else
          var selected := Select(env, i, mark, family);
          if selected == [] then DeniedAnswer else Ready(selected)
  }

  /** A selected address came from an offered one that the policy of this very mark allows. */
  lemma SelectedAllowed(env: Env, i: nat, mark: int, addrs: seq<Addr>, a: Addr)
    requires a in Select(env, i, mark, addrs)
    ensures env.allowed(mark)(a) && exists raw :: raw in addrs && Usable(raw) && a == Unmap(raw)
  {
    SelectionSound(env.strategy, env.attemptCap, addrs, env.allowed(mark), env.sequence(i));
    assert a in Distil(addrs, env.allowed(mark));
    var j :| 0 <= j < |addrs| && Kept(addrs[j], a, env.allowed(mark));
  }

  /** Every candidate passed the policy for its mark and is IPv4 on a marked egress. */
  lemma CandidatesSafe(env: Env, i: nat, mark: int, answer: Lookup, a: Addr)
    requires Candidates(env, i, mark, answer).Ready? && a in Candidates(env, i, mark, answer).addrs
    ensures env.allowed(mark)(a) && (mark == 0 || a.V4?)
  {
    match env.host
    case Literal(Some(lit)) =>
      SelectedAllowed(env, i, mark, [lit], a);
    case Name =>
      SelectedAllowed(env, i, mark, FamilyCandidates(answer.addrs, mark), a);
  }

  /** `a` is what the egress can dial for an address of an answer: IPv4, also when written as a mapped address, and on
      the direct egress IPv6; without a zone, and allowed by the policy of the mark. */
  ghost predicate Offers(raw: Addr, a: Addr, mark: int, allowed: Addr -> bool) {
    && allowed(a)
    && (|| (raw == a && a.V4?)
        || (raw.V4in6? && raw.zone == "" && a == V4(raw.value))
        || (raw == a && mark == 0 && a.V6? && a.zone == ""))
  }

  ghost predicate Offered(addrs: seq<Addr>, a: Addr, mark: int, allowed: Addr -> bool) {
    exists j :: 0 <= j < |addrs| && Offers(addrs[j], a, mark, allowed)
  }

  lemma DistilOffers(addrs: seq<Addr>, a: Addr, mark: int, allowed: Addr -> bool)
    ensures a in Distil(FamilyCandidates(addrs, mark), allowed) <==> Offered(addrs, a, mark, allowed)
  {
    var family := FamilyCandidates(addrs, mark);
    if a in Distil(family, allowed) {
      var j :| 0 <= j < |family| && Kept(family[j], a, allowed);
      var k :| 0 <= k < |addrs| && addrs[k] == family[j];
      OffersMeans(addrs[k], a, mark, allowed);
    }
    if k :| 0 <= k < |addrs| && Offers(addrs[k], a, mark, allowed) {
      OffersMeans(addrs[k], a, mark, allowed);
      FamilyInOrder(addrs, mark, k);
      assert Kept(family[AllowedBefore(addrs, mark, k)], a, allowed);
    }
  }

  lemma OffersMeans(raw: Addr, a: Addr, mark: int, allowed: Addr -> bool)
    ensures Offers(raw, a, mark, allowed) <==> FamilyAllowed(raw, mark) && Kept(raw, a, allowed)
  {}

  ghost function SetOf(s: seq<Addr>): set<Addr> { set a | a in s }

  lemma {:induction false} DistinctCount(s: seq<Addr>)
    requires Ordering.Distinct(s)
    ensures |SetOf(s)| == |s|
    decreases |s|
  {
    if s != [] {
      var front, last := s[..|s| - 1], s[|s| - 1];
      DistinctCount(front);
      assert SetOf(s) == SetOf(front) + {last};
    }
  }

  /** All of the usable addresses, or as many of them as the cap lets in, each once. */
  ghost predicate FilledFrom(addrs: seq<Addr>, usable: set<Addr>, cap: int) {
    && Ordering.Distinct(addrs) && |addrs| == Ordering.Min(cap, |usable|)
    && (forall a :: a in addrs ==> a in usable)
    && (|usable| <= cap ==> forall a :: a in usable ==> a in addrs)
  }

  lemma SelectFills(env: Env, i: nat, mark: int, addrs: seq<Addr>, usable: set<Addr>)
    requires env.attemptCap > 0 && usable == SetOf(Distil(addrs, env.allowed(mark)))
    ensures FilledFrom(Select(env, i, mark, addrs), usable, env.attemptCap)
  {
    var r, kept := Select(env, i, mark, addrs), Distil(addrs, env.allowed(mark));
    SelectionSound(env.strategy, env.attemptCap, addrs, env.allowed(mark), env.sequence(i));
    DistinctCount(kept);
    DistinctCount(r);
    assert SetOf(r) <= usable;
    if |usable| <= env.attemptCap { SubsetOfSameSize(SetOf(r), usable); }
  }

  lemma SubsetOfSameSize(a: set<Addr>, b: set<Addr>)
    requires a <= b && |a| == |b|
    ensures a == b
  {
    assert |b - a| == 0;
  }

  ghost predicate NameCandidacy(cap: int, mark: int, answer: Lookup, usable: set<Addr>, c: Candidacy) {
    && (c.Unresolved? <==> !answer.Found?)
    && (c.NoIPv4? <==> answer.Found? && NoneCarried(answer.addrs, mark))
    && (c.Ready? <==> answer.Found? && usable != {} && cap > 0)
    && (c.Ready? ==> FilledFrom(c.addrs, usable, cap))
    && !c.Denied?
  }

  /** What an egress makes of an answer: everything in it that it can dial, up to the cap; a denial if it could carry
      some of it but may dial none; and no candidate if it can carry none of it. */
  lemma NameCandidates(env: Env, i: nat, mark: int, answer: Lookup) returns (usable: set<Addr>)
    requires env.host.Name?
    ensures answer.Found? ==> forall a :: a in usable <==> Offered(answer.addrs, a, mark, env.allowed(mark))
    ensures NameCandidacy(env.attemptCap, mark, answer, usable, Candidates(env, i, mark, answer))
  {
    usable := {};
    if answer.Found? {
      var family := FamilyCandidates(answer.addrs, mark);
      usable := SetOf(Distil(family, env.allowed(mark)));
      forall a ensures a in usable <==> Offered(answer.addrs, a, mark, env.allowed(mark)) {
        DistilOffers(answer.addrs, a, mark, env.allowed(mark));
      }
      assert family == [] ==> usable == {};
      if env.attemptCap > 0 {
        SelectFills(env, i, mark, family, usable);
        assert Select(env, i, mark, family) == [] <==> |usable| == 0;
      }
    }
  }

  /** The egress can carry none of the addresses: a marked one carries no IPv6. */
  ghost predicate NoneCarried(addrs: seq<Addr>, mark: int) {
    if mark == 0 then addrs == [] else forall j :: 0 <= j < |addrs| ==> !addrs[j].V4? && !addrs[j].V4in6?
  }

  /** A literal that the egress can dial is its one candidate; else it is refused, or cannot be carried. */
  lemma LiteralCandidates(env: Env, i: nat, mark: int, raw: Addr, answer: Lookup)
    requires env.host == Literal(Some(raw))
    ensures var c := Candidates(env, i, mark, answer);
      && (c.NoIPv4? <==> NoneCarried([raw], mark))
      && (c.Ready? <==> env.attemptCap > 0 && exists a :: Offers(raw, a, mark, env.allowed(mark)))
      && (c.Ready? ==> |c.addrs| == 1 && Offers(raw, c.addrs[0], mark, env.allowed(mark)))
      && !c.Unresolved? && !c.DeniedAnswer?
  {
    SelectLiteral(env, i, mark, raw);
    assert [raw][0] == raw;
    if Usable(raw) && env.allowed(mark)(Unmap(raw)) && FamilyAllowed(raw, mark) {
      assert Offers(raw, Unmap(raw), mark, env.allowed(mark));
    }
  }

  lemma DistilOne(raw: Addr, allowed: Addr -> bool)
    ensures Distil([raw], allowed) == if Usable(raw) && allowed(Unmap(raw)) then [Unmap(raw)] else []
  {
    assert [raw][..0] == [] && Distil([raw][..0], allowed) == [];
  }

  lemma SelectLiteral(env: Env, i: nat, mark: int, raw: Addr)
    ensures Select(env, i, mark, [raw]) ==
      if env.attemptCap > 0 && Usable(raw) && env.allowed(mark)(Unmap(raw)) then [Unmap(raw)] else []
  {
    DistilOne(raw, env.allowed(mark));
    SelectionSound(env.strategy, env.attemptCap, [raw], env.allowed(mark), env.sequence(i));
  }

  predicate AllRefusedBy(addrs: seq<Addr>, allowed: Addr -> bool) {
    forall j :: 0 <= j < |addrs| && Usable(addrs[j]) ==> !allowed(Unmap(addrs[j]))
  }

  /** An egress denies an answer exactly when it was given some address of its family and every usable one of
      them is refused by the policy of its mark (or the cap lets none be selected). */
  lemma DeniedMeans(env: Env, i: nat, mark: int, answer: Lookup)
    requires env.host.Name? && answer.Found?
    ensures Candidates(env, i, mark, answer).DeniedAnswer? <==>
      var family := FamilyCandidates(answer.addrs, mark);
      family != [] && (env.attemptCap <= 0 || AllRefusedBy(family, env.allowed(mark)))
  {
    var family := FamilyCandidates(answer.addrs, mark);
    var kept := Distil(family, env.allowed(mark));
    SelectionSound(env.strategy, env.attemptCap, family, env.allowed(mark), env.sequence(i));
    if kept != [] {
      assert kept[0] in kept;
      var j :| 0 <= j < |family| && Kept(family[j], kept[0], env.allowed(mark));
    }
    forall j | 0 <= j < |family| && Usable(family[j]) && env.allowed(mark)(Unmap(family[j])) ensures kept != [] {
      assert Kept(family[j], Unmap(family[j]), env.allowed(mark));
      assert Unmap(family[j]) in kept;
    }
  }

  // ---- one egress ----

  datatype Ending = Linked(addr: Addr) | Refused | Broken

  /** How one egress went: the time left before it, its slice and the time it took of it, how it ended, the
      addresses dialed on it, and whether its cached answer was dropped. */
  datatype Egress = Egress(mark: int, before: int, slice: int, spent: int, ending: Ending, dialed: seq<Addr>,
                           invalidated: bool)

  function Answer(env: Env, i: nat, slice: int): Lookup {
    if env.host.Name? then env.lookup(i, slice) else NoResolver
  }

  function AnswerTime(env: Env, i: nat, slice: int): int {
    if env.host.Name? then env.lookupTime(i, slice) else 0
  }

  ghost predicate DialsAllowed(env: Env, e: Egress) {
    forall j :: 0 <= j < |e.dialed| ==> env.allowed(e.mark)(e.dialed[j]) && (e.mark == 0 || e.dialed[j].V4?)
  }

  /** The candidates were dialed in order within what the lookup left of the slice. */
  ghost predicate Dialed(env: Env, i: nat, floor: int, e: Egress, addrs: seq<Addr>)
    requires floor > 0
  {
    var run := RunFrom(e.slice - AnswerTime(env, i, e.slice), 0, |addrs|, floor, env.dial(i));
    && |run.slices| <= |addrs| && e.dialed == addrs[..|run.slices|]
    && e.spent == e.slice - run.left
    && (e.ending.Linked? <==> run.connected)
    && (e.ending.Linked? ==> |e.dialed| > 0 && e.ending.addr == e.dialed[|e.dialed| - 1])
  }

  /** What one egress reports when its candidates are `c`. */
  ghost predicate ReportsAs(env: Env, i: nat, floor: int, e: Egress, c: Candidacy)
    requires floor > 0
  {
    && DialsAllowed(env, e) && EndsAs(env, e, AnswerTime(env, i, e.slice), c)
    && (c.Ready? ==> Dialed(env, i, floor, e, c.addrs))
  }

  /** How the egress ends for its candidates: refused on a denial, undialed without any, and with the cached answer
      dropped on a denied answer and when nothing connects. */
  ghost predicate EndsAs(env: Env, e: Egress, time: int, c: Candidacy) {
    && (e.ending.Refused? <==> c.Denied? || c.DeniedAnswer?)
    && (!c.Ready? ==> Undialed(e, time))
    && (e.invalidated <==> env.host.Name? && (c.DeniedAnswer? || (c.Ready? && !e.ending.Linked?)))
  }

  /** Nothing was dialed, and the egress took the time of its lookup. */
  ghost predicate Undialed(e: Egress, time: int) { e.dialed == [] && !e.ending.Linked? && e.spent == time }

  ghost predicate Reports(env: Env, i: nat, floor: int, e: Egress)
    requires floor > 0
  {
    ReportsAs(env, i, floor, e, Candidates(env, i, e.mark, Answer(env, i, e.slice)))
  }

  lemma ReadyAllowed(env: Env, i: nat, mark: int, answer: Lookup)
    requires Candidates(env, i, mark, answer).Ready?
    ensures var addrs := Candidates(env, i, mark, answer).addrs;
      forall j :: 0 <= j < |addrs| ==> env.allowed(mark)(addrs[j]) && (mark == 0 || addrs[j].V4?)
  {
    var addrs := Candidates(env, i, mark, answer).addrs;
    forall j | 0 <= j < |addrs| ensures env.allowed(mark)(addrs[j]) && (mark == 0 || addrs[j].V4?) {
      CandidatesSafe(env, i, mark, answer, addrs[j]);
    }
  }

  lemma {:induction false} AttemptsBounded(remaining: int, i: nat, n: nat, floor: int, dial: Dialer)
    requires floor > 0 && i <= n
    ensures |RunFrom(remaining, i, n, floor, dial).slices| <= n - i
    ensures RunFrom(remaining, i, n, floor, dial).connected ==> |RunFrom(remaining, i, n, floor, dial).slices| > 0
    decreases n - i
  {
    if i < n && remaining > 0 {
      var a := dial(i, BudgetSlice(remaining, n - i, floor));
      AttemptsBounded(remaining - a.elapsed, i + 1, n, floor, dial);
    }
  }

  lemma SelectionCapped(env: Env, i: nat, mark: int, answer: Lookup)
    requires Candidates(env, i, mark, answer).Ready?
    ensures 0 < |Candidates(env, i, mark, answer).addrs| <= env.attemptCap
  {
    match env.host
    case Literal(Some(lit)) =>
      SelectionSound(env.strategy, env.attemptCap, [lit], env.allowed(mark), env.sequence(i));
    case Name =>
      SelectionSound(env.strategy, env.attemptCap, FamilyCandidates(answer.addrs, mark), env.allowed(mark),
        env.sequence(i));
  }

  /** Dials the candidates of one egress with what the lookup left of its slice. */
  method DialReady(env: Env, i: nat, mark: int, addrs: seq<Addr>, before: int, slice: int, floor: int)
    returns (e: Egress)
    requires floor > 0 && 0 < |addrs| <= env.attemptCap
    ensures e.mark == mark && e.before == before && e.slice == slice && Dialed(env, i, floor, e, addrs)
    ensures !e.ending.Refused? && (e.invalidated <==> env.host.Name? && !e.ending.Linked?)
  {
    var budget := slice - AnswerTime(env, i, slice);
    AttemptsBounded(budget, 0, |addrs|, floor, env.dial(i));
    var outcome, attempts, left := DialCandidates(|addrs|, env.attemptCap, budget, floor, env.dial(i));
    if outcome.Connected? {
      e := Egress(mark, before, slice, slice - left, Linked(addrs[attempts - 1]), addrs[..attempts], false);
    } else {
      e := Egress(mark, before, slice, slice - left, Broken, addrs[..attempts], env.host.Name?);
    }
  }

  /** Resolves, filters, selects and dials one egress within its slice. */
  method DialBackend(env: Env, i: nat, mark: int, before: int, slice: int, floor: int) returns (e: Egress)
    requires floor > 0
    ensures e.mark == mark && e.before == before && e.slice == slice && Reports(env, i, floor, e)
  {
    var answer, spent := Answer(env, i, slice), AnswerTime(env, i, slice);
    var c := Candidates(env, i, mark, answer);
    match c {
      case Denied => e := Egress(mark, before, slice, spent, Refused, [], false);
      case DeniedAnswer => e := Egress(mark, before, slice, spent, Refused, [], true);
      case NoIPv4 => e := Egress(mark, before, slice, spent, Broken, [], false);
      case Unresolved => e := Egress(mark, before, slice, spent, Broken, [], false);
      case Ready(addrs) =>
        SelectionCapped(env, i, mark, answer);
        ReadyAllowed(env, i, mark, answer);
        e := DialReady(env, i, mark, addrs, before, slice, floor);
    }
  }

  /** Each candidate in turn was dialed within what the lookup's `time` left of the slice; the first that connected is
      the connection, and without one every candidate was dialed or no time was left. */
  ghost predicate DialedInTurn(dial: Dialer, time: int, e: Egress, addrs: seq<Addr>, slices: seq<int>) {
    var n := |slices|;
    && n <= |addrs| && e.dialed == addrs[..n]
    && e.slice - e.spent == LeftBefore(e.slice - time, 0, slices, dial, n)
    && (forall j :: 0 <= j < n - 1 ==> !dial(j, slices[j]).connected)
    && (e.ending.Linked? <==> n > 0 && dial(n - 1, slices[n - 1]).connected)
    && (e.ending.Linked? ==> e.ending.addr == addrs[n - 1])
    && (!e.ending.Linked? ==> n == |addrs| || e.spent >= e.slice)
  }

  /** And each on its fair slice of what was left. */
  ghost predicate DialedFairly(dial: Dialer, time: int, floor: int, e: Egress, addrs: seq<Addr>, slices: seq<int>) {
    DialedInTurn(dial, time, e, addrs, slices) && SlicesFair(slices, e.slice - time, |addrs|, floor, dial)
  }

  lemma BackendDials(env: Env, i: nat, floor: int, e: Egress, addrs: seq<Addr>) returns (slices: seq<int>)
    requires floor > 0 && Dialed(env, i, floor, e, addrs)
    ensures DialedFairly(env.dial(i), AnswerTime(env, i, e.slice), floor, e, addrs, slices)
  {
    var budget := e.slice - AnswerTime(env, i, e.slice);
    slices := RunFrom(budget, 0, |addrs|, floor, env.dial(i)).slices;
    RunInTurn(budget, 0, |addrs|, floor, env.dial(i));
    InTurnDials(RunFrom(budget, 0, |addrs|, floor, env.dial(i)), env.dial(i), AnswerTime(env, i, e.slice), e, addrs);
    EverySliceFair(budget, 0, |addrs|, floor, env.dial(i));
  }

  lemma InTurnDials(run: Run, dial: Dialer, time: int, e: Egress, addrs: seq<Addr>)
    requires InTurn(run, e.slice - time, 0, |addrs|, dial) && e.dialed == addrs[..|run.slices|]
    requires e.spent == e.slice - run.left && (e.ending.Linked? <==> run.connected)
    requires e.ending.Linked? ==> |e.dialed| > 0 && e.ending.addr == e.dialed[|e.dialed| - 1]
    ensures DialedInTurn(dial, time, e, addrs, run.slices)
  {
    forall j | 0 <= j < |run.slices| - 1 ensures !dial(j, run.slices[j]).connected { assert 0 + j == j; }
  }

  /** A candidate that is reached with time left and connects in its slice makes the egress connect, there or at an
      earlier candidate. */
  lemma CandidateConnects(dial: Dialer, time: int, e: Egress, addrs: seq<Addr>, slices: seq<int>, j: nat)
    requires DialedInTurn(dial, time, e, addrs, slices) && j < |addrs|
    requires j < |slices| ==> dial(j, slices[j]).connected
    requires j >= |slices| ==> e.spent < e.slice
    ensures e.ending.Linked? && |slices| <= j + 1
  {}

  /** What becomes of a name: a failed lookup and an answer the egress cannot carry break it, an answer of which it may
      dial nothing is refused and dropped, and any other is dialed, and dropped if nothing connects. */
  ghost predicate NameOutcome(env: Env, i: nat, floor: int, e: Egress, usable: set<Addr>, addrs: seq<Addr>,
                              slices: seq<int>)
  {
    var answer, time := env.lookup(i, e.slice), env.lookupTime(i, e.slice);
    if !answer.Found? || NoneCarried(answer.addrs, e.mark) then e.ending.Broken? && Undialed(e, time) && !e.invalidated
    else
      && (forall a :: a in usable <==> Offered(answer.addrs, a, e.mark, env.allowed(e.mark)))
      && if usable == {} || env.attemptCap <= 0 then e.ending.Refused? && Undialed(e, time) && e.invalidated
         else
           && FilledFrom(addrs, usable, env.attemptCap) && DialedFairly(env.dial(i), time, floor, e, addrs, slices)
           && !e.ending.Refused? && (e.invalidated <==> !e.ending.Linked?)
  }

  /** What becomes of an address: it is refused if it is unreadable or may not be dialed, broken if the egress cannot
      carry it, and else dialed; no lookup is made and nothing is dropped. */
  ghost predicate LiteralOutcome(env: Env, i: nat, floor: int, e: Egress, host: Option<Addr>, addrs: seq<Addr>,
                                 slices: seq<int>)
  {
    && !e.invalidated
    && if host.Some? && NoneCarried([host.value], e.mark) then e.ending.Broken? && Undialed(e, 0)
       else if host.None? || |addrs| == 0 then
         && e.ending.Refused? && Undialed(e, 0)
         && (host.Some? && env.attemptCap > 0 ==>
               forall a :: !Offers(host.value, a, e.mark, env.allowed(e.mark)))
       else
         && |addrs| == 1 && Offers(host.value, addrs[0], e.mark, env.allowed(e.mark)) && !e.ending.Refused?
         && DialedFairly(env.dial(i), 0, floor, e, addrs, slices)
  }

  /** One egress, end to end, in terms of the lookup, the policy and the dials alone. */
  lemma BackendExact(env: Env, i: nat, floor: int, e: Egress)
    returns (usable: set<Addr>, addrs: seq<Addr>, slices: seq<int>)
    requires floor > 0 && Reports(env, i, floor, e)
    ensures match env.host
      case Name => NameOutcome(env, i, floor, e, usable, addrs, slices)
      case Literal(host) => LiteralOutcome(env, i, floor, e, host, addrs, slices)
  {
    var answer := Answer(env, i, e.slice);
    var c := Candidates(env, i, e.mark, answer);
    usable, addrs, slices := {}, [], [];
    if c.Ready? {
      addrs := c.addrs;
      slices := BackendDials(env, i, floor, e, addrs);
    }
    match env.host
    case Name => usable := NameExact(env, i, floor, e, addrs, slices);
    case Literal(host) => LiteralExact(env, i, floor, e, host, addrs, slices);
  }

  /** The addresses and slices of what was dialed. */
  ghost predicate DialedAs(env: Env, i: nat, floor: int, e: Egress, c: Candidacy, addrs: seq<Addr>, slices: seq<int>) {
    if c.Ready? then
      addrs == c.addrs && DialedFairly(env.dial(i), AnswerTime(env, i, e.slice), floor, e, addrs, slices)
    else addrs == []
  }

  lemma NameExact(env: Env, i: nat, floor: int, e: Egress, addrs: seq<Addr>, slices: seq<int>)
    returns (usable: set<Addr>)
    requires floor > 0 && Reports(env, i, floor, e) && env.host.Name?
    requires DialedAs(env, i, floor, e, Candidates(env, i, e.mark, Answer(env, i, e.slice)), addrs, slices)
    ensures NameOutcome(env, i, floor, e, usable, addrs, slices)
  {
    usable := NameCandidates(env, i, e.mark, Answer(env, i, e.slice));
    NameReports(env, i, floor, e, Candidates(env, i, e.mark, Answer(env, i, e.slice)), usable, addrs, slices);
  }

  lemma NameReports(env: Env, i: nat, floor: int, e: Egress, c: Candidacy, usable: set<Addr>, addrs: seq<Addr>,
                    slices: seq<int>)
    requires env.host.Name? && EndsAs(env, e, env.lookupTime(i, e.slice), c)
    requires DialedAs(env, i, floor, e, c, addrs, slices)
    requires var answer := env.lookup(i, e.slice);
      && (answer.Found? ==> forall a :: a in usable <==> Offered(answer.addrs, a, e.mark, env.allowed(e.mark)))
      && NameCandidacy(env.attemptCap, e.mark, answer, usable, c)
    ensures NameOutcome(env, i, floor, e, usable, addrs, slices)
  {}

  lemma LiteralExact(env: Env, i: nat, floor: int, e: Egress, host: Option<Addr>, addrs: seq<Addr>, slices: seq<int>)
    requires floor > 0 && Reports(env, i, floor, e) && env.host == Literal(host)
    requires DialedAs(env, i, floor, e, Candidates(env, i, e.mark, Answer(env, i, e.slice)), addrs, slices)
    ensures LiteralOutcome(env, i, floor, e, host, addrs, slices)
  {
    if host.Some? { LiteralCandidates(env, i, e.mark, host.value, Answer(env, i, e.slice)); }
  }

  // ---- all egresses ----

  datatype Outcome = Reached(mark: int, addr: Addr) | DestinationDenied | DialError | NoEgress

  /** The egresses tried, in order, and the verdict the connection gets. */
  ghost predicate Judged(marks: seq<int>, tried: seq<Egress>, outcome: Outcome) {
    && |tried| <= |marks|
    && (forall i :: 0 <= i < |tried| ==> tried[i].mark == marks[i])
    && (forall i :: 0 <= i < |tried| - 1 ==> !tried[i].ending.Linked?)
    && (outcome.Reached? <==> |tried| > 0 && tried[|tried| - 1].ending.Linked?)
    && (outcome.Reached? ==> outcome.mark == tried[|tried| - 1].mark && outcome.addr == tried[|tried| - 1].ending.addr)
    && (outcome.DestinationDenied? <==> |marks| > 0 && |tried| == |marks| && AllRefused(tried))
    && (outcome.NoEgress? <==> marks == [])
  }

  ghost predicate AllRefused(tried: seq<Egress>) { forall i :: 0 <= i < |tried| ==> tried[i].ending.Refused? }

  /** The egresses tried so far, none connected; the two counters split them. */
  ghost predicate SoFar(marks: seq<int>, tried: seq<Egress>, denied: int, failed: int) {
    && |tried| <= |marks|
    && (forall i :: 0 <= i < |tried| ==> tried[i].mark == marks[i] && !tried[i].ending.Linked?)
    && denied >= 0 && failed >= 0 && denied + failed == |tried|
    && (failed == 0 <==> AllRefused(tried))
  }

  lemma SoFarGrows(marks: seq<int>, tried: seq<Egress>, denied: int, failed: int, e: Egress)
    requires SoFar(marks, tried, denied, failed) && |tried| < |marks| && e.mark == marks[|tried|] && !e.ending.Linked?
    ensures e.ending.Refused? ==> SoFar(marks, tried + [e], denied + 1, failed)
    ensures !e.ending.Refused? ==> SoFar(marks, tried + [e], denied, failed + 1)
  {
    var more := tried + [e];
    assert more[|tried|] == e;
    assert forall i :: 0 <= i < |tried| ==> more[i] == tried[i];
    assert AllRefused(more) <==> AllRefused(tried) && e.ending.Refused?;
  }

  lemma ReachedIsJudged(marks: seq<int>, tried: seq<Egress>, denied: int, failed: int, e: Egress)
    requires SoFar(marks, tried, denied, failed) && |tried| < |marks| && e.mark == marks[|tried|] && e.ending.Linked?
    ensures Judged(marks, tried + [e], Reached(e.mark, e.ending.addr))
  {
    assert !(tried + [e])[|tried|].ending.Refused?;
  }

  ghost predicate AllAt(p: (nat, Egress) -> bool, tried: seq<Egress>) {
    forall i {:trigger p(i, tried[i])} :: 0 <= i < |tried| ==> p(i, tried[i])
  }

  lemma AllAtGrows(p: (nat, Egress) -> bool, tried: seq<Egress>, e: Egress)
    requires AllAt(p, tried) && p(|tried|, e)
    ensures AllAt(p, tried + [e])
  {
    var more := tried + [e];
    forall i | 0 <= i < |more| ensures p(i, more[i]) {
      if i < |tried| {
        assert p(i, tried[i]);
      }
    }
  }

  ghost function Reporting(env: Env, floor: int): (nat, Egress) -> bool
    requires floor > 0
  {
    (i: nat, e: Egress) => Reports(env, i, floor, e)
  }

  /** Each egress tried reports what its position in the order, its mark and its slice call for. */
  ghost predicate AllReport(env: Env, floor: int, tried: seq<Egress>)
    requires floor > 0
  {
    AllAt(Reporting(env, floor), tried)
  }

  lemma ReportAt(env: Env, floor: int, tried: seq<Egress>, i: nat)
    requires floor > 0 && AllReport(env, floor, tried) && i < |tried|
    ensures Reports(env, i, floor, tried[i])
  {
    assert Reporting(env, floor)(i, tried[i]);
  }

  // ---- the time the egresses take ----

  function ReadyCount(c: Candidacy): nat { if c.Ready? then |c.addrs| else 0 }

  /** The number of addresses an egress has to dial in a slice. */
  function CandidateCount(env: Env, marks: seq<int>): (nat, int) -> nat {
    (i: nat, slice: int) =>
      if i < |marks| then ReadyCount(Candidates(env, i, marks[i], Answer(env, i, slice))) else 0
  }

  function AnswerTimes(env: Env): (nat, int) -> int {
    (i: nat, slice: int) => AnswerTime(env, i, slice)
  }

  function Egresses(env: Env, marks: seq<int>, floor: int): Dialer
    requires floor > 0
  {
    EgressDialer(AnswerTimes(env), CandidateCount(env, marks), floor, env.dial)
  }

  /** The egress took the lookup's time and then that of a run over its candidates. */
  ghost predicate Took(e: Egress, time: int, count: nat, floor: int, dial: Dialer)
    requires floor > 0
  {
    var inner := RunFrom(e.slice - time, 0, count, floor, dial);
    e.spent == e.slice - inner.left && e.ending.Linked? == inner.connected
  }

  lemma TookIsAttempt(resolve: (nat, int) -> int, candidates: (nat, int) -> nat, floor: int, dials: nat -> Dialer,
                      i: nat, e: Egress)
    requires floor > 0 && Took(e, resolve(i, e.slice), candidates(i, e.slice), floor, dials(i))
    ensures EgressDialer(resolve, candidates, floor, dials)(i, e.slice) == Attempt(e.spent, e.ending.Linked?)
  {}

  lemma ReportTook(env: Env, floor: int, i: nat, e: Egress, c: Candidacy)
    requires floor > 0 && ReportsAs(env, i, floor, e, c)
    ensures Took(e, AnswerTime(env, i, e.slice), ReadyCount(c), floor, env.dial(i))
  {}

  lemma CountAt(env: Env, marks: seq<int>, i: nat, slice: int)
    requires i < |marks|
    ensures CandidateCount(env, marks)(i, slice) == ReadyCount(Candidates(env, i, marks[i], Answer(env, i, slice)))
  {}

  lemma ReportIsAttempt(env: Env, marks: seq<int>, floor: int, i: nat, e: Egress)
    requires floor > 0 && i < |marks| && e.mark == marks[i] && Reports(env, i, floor, e)
    ensures Egresses(env, marks, floor)(i, e.slice) == Attempt(e.spent, e.ending.Linked?)
  {
    ReportTook(env, floor, i, e, Candidates(env, i, e.mark, Answer(env, i, e.slice)));
    CountAt(env, marks, i, e.slice);
    TookIsAttempt(AnswerTimes(env), CandidateCount(env, marks), floor, env.dial, i, e);
  }

  /** The time left after the first `k` egresses. */
  function LeftAfter(budget: int, tried: seq<Egress>, k: nat): int
    requires k <= |tried|
  {
    if k == 0 then budget else tried[k - 1].before - tried[k - 1].spent
  }

  /** Egress `k` was tried with time left, on its slice of what the ones before it left. */
  ghost predicate FundedAt(budget: int, n: nat, floor: int, tried: seq<Egress>, k: nat)
    requires floor > 0 && k < |tried|
  {
    var e := tried[k];
    e.before == LeftAfter(budget, tried, k) && e.before > 0 && e.slice == BudgetSlice(e.before, n - k, floor)
  }

  ghost predicate Funded(budget: int, n: nat, floor: int, tried: seq<Egress>)
    requires floor > 0
  {
    forall k {:trigger FundedAt(budget, n, floor, tried, k)} :: 0 <= k < |tried| ==>
      FundedAt(budget, n, floor, tried, k)
  }

  lemma FundedGrows(budget: int, n: nat, floor: int, tried: seq<Egress>, e: Egress)
    requires floor > 0 && Funded(budget, n, floor, tried)
    requires e.before == LeftAfter(budget, tried, |tried|) && e.before > 0 &&
      e.slice == BudgetSlice(e.before, n - |tried|, floor)
    ensures Funded(budget, n, floor, tried + [e])
  {
    var more := tried + [e];
    forall k | 0 <= k < |more| ensures FundedAt(budget, n, floor, more, k) {
      assert k < |tried| ==> more[k] == tried[k];
      assert k > 0 ==> more[k - 1] == tried[k - 1];
      if k < |tried| {
        assert FundedAt(budget, n, floor, tried, k);
      }
    }
  }

  /** The first `k` egresses are the head of `run`, and `rest` is its tail. */
  ghost predicate Heads(run: Run, tried: seq<Egress>, k: nat, rest: Run)
    requires k <= |tried|
  {
    && |run.slices| == k + |rest.slices|
    && (forall i :: 0 <= i < k ==> tried[i].slice == run.slices[i])
    && (forall j :: 0 <= j < |rest.slices| ==> rest.slices[j] == run.slices[k + j])
    && run.left == rest.left && run.connected == rest.connected
  }

  lemma HeadsShift(run: Run, tried: seq<Egress>, k: nat, rest: Run, next: Run)
    requires k < |tried| && Heads(run, tried, k, rest)
    requires rest.slices == [tried[k].slice] + next.slices && rest.left == next.left && rest.connected == next.connected
    ensures Heads(run, tried, k + 1, next)
  {
    assert rest.slices[0] == tried[k].slice == run.slices[k + 0];
    forall j | 0 <= j < |next.slices| ensures next.slices[j] == run.slices[k + 1 + j] {
      assert next.slices[j] == rest.slices[j + 1] == run.slices[k + (j + 1)];
    }
  }

  /** What a run does first. */
  lemma RunHead(left: int, k: nat, n: nat, floor: int, egress: Dialer, slice: int, a: Attempt)
    requires floor > 0 && k < n && left > 0 && slice == BudgetSlice(left, n - k, floor) && a == egress(k, slice)
    ensures RunFrom(left, k, n, floor, egress) ==
      if a.connected then Run([slice], left - a.elapsed, true)
      else
        var next := RunFrom(left - a.elapsed, k + 1, n, floor, egress);
        Run([slice] + next.slices, next.left, next.connected)
  {}

  /** Egress `k` did what `egress` says it does in its slice. */
  ghost predicate Obeys(egress: Dialer, tried: seq<Egress>, k: nat)
    requires k < |tried|
  {
    egress(k, tried[k].slice) == Attempt(tried[k].spent, tried[k].ending.Linked?)
  }

  /** Funded egresses that did what `egress` says, the ones before `k` in vain, are the head of its run. */
  lemma {:induction false} FundedHeads(n: nat, budget: int, floor: int, egress: Dialer, run: Run, tried: seq<Egress>,
                                       k: nat)
    requires floor > 0 && k <= |tried| <= n && Funded(budget, n, floor, tried)
    requires run == RunFrom(budget, 0, n, floor, egress)
    requires forall i :: 0 <= i < k ==> Obeys(egress, tried, i) && !tried[i].ending.Linked?
    ensures Heads(run, tried, k, RunFrom(LeftAfter(budget, tried, k), k, n, floor, egress))
  {
    if k > 0 {
      FundedHeads(n, budget, floor, egress, run, tried, k - 1);
      HeadsGrow(n, budget, floor, egress, run, tried, k - 1);
    }
  }

  lemma HeadsGrow(n: nat, budget: int, floor: int, egress: Dialer, run: Run, tried: seq<Egress>, k: nat)
    requires floor > 0 && k < |tried| <= n && Funded(budget, n, floor, tried) && Obeys(egress, tried, k)
    requires Heads(run, tried, k, RunFrom(LeftAfter(budget, tried, k), k, n, floor, egress))
    ensures var left := LeftAfter(budget, tried, k + 1);
      var rest := if tried[k].ending.Linked? then Run([], left, true) else RunFrom(left, k + 1, n, floor, egress);
      Heads(run, tried, k + 1, rest)
  {
    var e := tried[k];
    assert FundedAt(budget, n, floor, tried, k);
    RunHead(e.before, k, n, floor, egress, e.slice, Attempt(e.spent, e.ending.Linked?));
    var rest := RunFrom(e.before, k, n, floor, egress);
    if e.ending.Linked? {
      HeadsShift(run, tried, k, rest, Run([], e.before - e.spent, true));
    } else {
      HeadsShift(run, tried, k, rest, RunFrom(e.before - e.spent, k + 1, n, floor, egress));
    }
  }

  /** Funded egresses of which only the last may have connected, and which end only when one connects, the
      list is exhausted or no time is left, are the whole run. */
  lemma FundedIsRun(n: nat, budget: int, floor: int, egress: Dialer, run: Run, tried: seq<Egress>, reached: bool)
    requires floor > 0 && |tried| <= n && Funded(budget, n, floor, tried)
    requires run == RunFrom(budget, 0, n, floor, egress)
    requires forall i :: 0 <= i < |tried| ==> Obeys(egress, tried, i)
    requires forall i :: 0 <= i < |tried| - 1 ==> !tried[i].ending.Linked?
    requires reached <==> |tried| > 0 && tried[|tried| - 1].ending.Linked?
    requires |tried| < n && !reached ==> LeftAfter(budget, tried, |tried|) <= 0
    ensures Heads(run, tried, |tried|, Run([], LeftAfter(budget, tried, |tried|), reached))
  {
    if reached {
      FundedHeads(n, budget, floor, egress, run, tried, |tried| - 1);
      HeadsGrow(n, budget, floor, egress, run, tried, |tried| - 1);
    } else {
      FundedHeads(n, budget, floor, egress, run, tried, |tried|);
    }
  }

  /** The slices handed to the egresses, the time left and the connection are those of the budgeted run. */
  lemma FailoverIsRun(env: Env, marks: seq<int>, budget: int, floor: int, tried: seq<Egress>, outcome: Outcome,
                      run: Run)
    requires floor > 0 && Judged(marks, tried, outcome) && AllReport(env, floor, tried)
    requires Funded(budget, |marks|, floor, tried)
    requires |tried| < |marks| && !outcome.Reached? ==> LeftAfter(budget, tried, |tried|) <= 0
    requires run == RunFrom(budget, 0, |marks|, floor, Egresses(env, marks, floor))
    ensures Heads(run, tried, |tried|, Run([], LeftAfter(budget, tried, |tried|), outcome.Reached?))
  {
    var egress := Egresses(env, marks, floor);
    forall i | 0 <= i < |tried| ensures Obeys(egress, tried, i) {
      ReportAt(env, floor, tried, i);
      ReportIsAttempt(env, marks, floor, i, tried[i]);
    }
    FundedIsRun(|marks|, budget, floor, egress, run, tried, outcome.Reached?);
  }

  lemma AnswersInTime(env: Env)
    requires Timely(env)
    ensures ResolvesInTime(AnswerTimes(env))
  {}

  /** Whatever resolvers and dials do inside their slices, failing over keeps to the dial timeout; unless it
      connects it tries as many egresses as floors fit; each egress tried gets the floor, or all that was left, and
      an even share of what was left; and a timeout that covers a floor per egress gives each
      egress tried at least an even share and leaves none untried. */
  lemma FailoverTime(env: Env, marks: seq<int>, timeout: int, floor: int, run: Run)
    requires floor > 0 && timeout > 0 && marks != [] && Timely(env)
    requires run == RunFrom(timeout, 0, |marks|, floor, Egresses(env, marks, floor))
    ensures 0 <= run.left
    ensures !run.connected ==> |run.slices| >= Ordering.Min(|marks|, CeilDiv(timeout, floor))
    ensures SlicesFair(run.slices, timeout, |marks|, floor, Egresses(env, marks, floor))
    ensures timeout >= |marks| * floor ==>
      (forall j :: 0 <= j < |run.slices| ==> run.slices[j] >= timeout / |marks|) &&
      (!run.connected ==> |run.slices| >= |marks|)
  {
    AnswersInTime(env);
    EgressPunctual(AnswerTimes(env), CandidateCount(env, marks), floor, env.dial);
    BudgetTheorem(timeout, |marks|, floor, Egresses(env, marks, floor));
  }

  /** Dials the next egress after those in `tried`, on its slice of what they left. */
  method DialNext(env: Env, marks: seq<int>, ghost budget: int, floor: int, tried: seq<Egress>, left: int)
    returns (e: Egress)
    requires floor > 0 && |tried| < |marks| && AllReport(env, floor, tried)
    requires Funded(budget, |marks|, floor, tried) && left == LeftAfter(budget, tried, |tried|) && left > 0
    ensures e.mark == marks[|tried|] && e.before == left
    ensures AllReport(env, floor, tried + [e]) && Funded(budget, |marks|, floor, tried + [e])
  {
    var slice := BudgetSlice(left, |marks| - |tried|, floor);
    e := DialReported(env, marks[|tried|], left, slice, floor, tried);
    FundedGrows(budget, |marks|, floor, tried, e);
  }

  method DialReported(env: Env, mark: int, before: int, slice: int, floor: int, tried: seq<Egress>) returns (e: Egress)
    requires floor > 0 && AllReport(env, floor, tried)
    ensures e.mark == mark && e.before == before && e.slice == slice && AllReport(env, floor, tried + [e])
  {
    e := DialBackend(env, |tried|, mark, before, slice, floor);
    AllAtGrows(Reporting(env, floor), tried, e);
  }

  /** Tries each mark in order within the budget. The connection is the first that succeeds, the result is a
      denial exactly when every mark was tried and denied, an egress goes untried only when nothing is left of
      the budget, and each gets its slice of what the ones before it left. */
  method DialEgresses(env: Env, marks: seq<int>, budget: int, floor: int)
    returns (outcome: Outcome, tried: seq<Egress>, left: int)
    requires floor > 0
    ensures Judged(marks, tried, outcome) && AllReport(env, floor, tried)
    ensures Funded(budget, |marks|, floor, tried) && left == LeftAfter(budget, tried, |tried|)
    ensures |tried| < |marks| && !outcome.Reached? ==> left <= 0
  {
    tried, left := [], budget;
    var denied, failed := 0, 0;
    for i := 0 to |marks|
      invariant |tried| == i && SoFar(marks, tried, denied, failed) && AllReport(env, floor, tried)
      invariant Funded(budget, |marks|, floor, tried) && left == LeftAfter(budget, tried, |tried|)
    {
      if left <= 0 {
        return DialError, tried, left;
      }
      var e := DialNext(env, marks, budget, floor, tried, left);
      left := left - e.spent;
      if e.ending.Linked? {
        ReachedIsJudged(marks, tried, denied, failed, e);
        return Reached(e.mark, e.ending.addr), tried + [e], left;
      }
      SoFarGrows(marks, tried, denied, failed, e);
      tried := tried + [e];
      if e.ending.Refused? { denied := denied + 1; } else { failed := failed + 1; }
    }
    if failed > 0 { return DialError, tried, left; }
    if denied > 0 { return DestinationDenied, tried, left; }
    return NoEgress, tried, left;
  }

  /** Over a whole run every address dialed on an egress passed the policy for that egress's mark and is IPv4
      unless the egress is direct. */
  lemma RunDialsAllowed(env: Env, floor: int, tried: seq<Egress>, i: nat, a: Addr)
    requires floor > 0 && AllReport(env, floor, tried)
    requires i < |tried| && a in tried[i].dialed
    ensures env.allowed(tried[i].mark)(a) && (tried[i].mark == 0 || a.V4?)
  {
    ReportAt(env, floor, tried, i);
    assert DialsAllowed(env, tried[i]);
  }
}
