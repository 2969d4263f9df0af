/** Splitting a dial budget over candidates and over egresses. Durations are whole nanoseconds. */
module DialBudget {
  import opened Ordering

  /** The slice for the next attempt; `floor` is the smallest useful attempt. */
  function BudgetSlice(remaining: int, attemptsLeft: int, floor: int): (slice: int)
    requires floor > 0
    ensures 0 <= slice <= Max(remaining, 0)
    ensures remaining > 0 ==> slice > 0 && slice >= Min(floor, remaining)
    ensures attemptsLeft <= 1 ==> slice == Max(remaining, 0)
  {
    if remaining <= 0 then 0
    else
      var slice := if attemptsLeft > 1 then remaining / attemptsLeft else remaining;
      Min(Max(slice, floor), remaining)
  }

  /** A slice is the floor or more, unless it is everything left; it is an even share of what is left or more; and
      it is no larger than one of the two. */
  predicate FairSlice(slice: int, left: int, attempts: int, floor: int)
    requires attempts > 0
  {
    && 0 < slice <= left
    && (slice >= floor || slice == left)
    && slice >= left / attempts
    && (slice <= floor || slice <= left / attempts)
  }

  /** How one attempt went: the time it took and whether it connected. */
  datatype Attempt = Attempt(elapsed: int, connected: bool)

  /** How attempt `i` goes when given `slice`. */
  type Dialer = (nat, int) -> Attempt

  ghost predicate Punctual(dial: Dialer) {
    forall i: nat, slice: int :: slice >= 0 ==> 0 <= dial(i, slice).elapsed <= slice
  }

  /** A run over `n` candidates from index `i`: the slices handed out, the time left, and the connection. */
  datatype Run = Run(slices: seq<int>, left: int, connected: bool)

  /** The run that starts at candidate `i` of `n` with `remaining` left; an exhausted budget stops it. */
  function RunFrom(remaining: int, i: nat, n: nat, floor: int, dial: Dialer): Run
    requires floor > 0 && i <= n
    decreases n - i
  {
    if i == n || remaining <= 0 then Run([], remaining, false)
    else
      var slice := BudgetSlice(remaining, n - i, floor);
      var a := dial(i, slice);
      if a.connected then Run([slice], remaining - a.elapsed, true)
      else
        var rest := RunFrom(remaining - a.elapsed, i + 1, n, floor, dial);
        Run([slice] + rest.slices, rest.left, rest.connected)
  }

  /** The time left before attempt `j` of a run whose first attempt is at candidate `i`. */
  function LeftBefore(budget: int, i: nat, slices: seq<int>, dial: Dialer, j: nat): int
    requires j <= |slices|
  {
    if j == 0 then budget
    else LeftBefore(budget, i, slices, dial, j - 1) - dial(i + j - 1, slices[j - 1]).elapsed
  }

  // ---- arithmetic ----

  function CeilDiv(a: int, m: int): int
    requires m > 0
  {
    (a + m - 1) / m
  }

  lemma DivBounds(a: int, m: int)
    requires m > 0
    ensures m * (a / m) <= a < m * (a / m) + m
  {}

  lemma ShareInside(a: int, m: int)
    requires m > 0 && a > 0
    ensures 0 <= a / m <= a && (m == 1 ==> a / m == a)
  {
    DivAtLeast(a, m, 0);
    DivAtMost(a, m, a);
  }

  lemma DivAtLeast(a: int, m: int, q: int)
    requires m > 0 && m * q <= a
    ensures a / m >= q
  {
    var d := a / m;
    DivBounds(a, m);
    if d <= q - 1 { Scale(m, d, q - 1); }
  }

  lemma DivAtMost(a: int, m: int, q: int)
    requires m > 0 && a < m * q + m
    ensures a / m <= q
  {
    var d := a / m;
    DivBounds(a, m);
    if d >= q + 1 { Scale(m, q + 1, d); }
  }

  /** One attempt costs either at most one floor, or at most an even share of what is left. */
  lemma SliceCost(remaining: int, left: int, floor: int)
    requires remaining > 0 && left >= 1 && floor > 0
    ensures var slice := BudgetSlice(remaining, left, floor);
      slice <= floor || left == 1 || slice == remaining / left
  {}

  /** After a share is spent, an even share of the rest is no smaller. */
  lemma ShareKeeps(remaining: int, left: int, spent: int, q: int)
    requires left >= 2 && 0 <= spent <= remaining / left && left * q <= remaining
    ensures (left - 1) * q <= remaining - spent
  {
    DivAtLeast(remaining, left, q);
    var d := remaining / left;
    DivBounds(remaining, left);
    assert remaining - spent >= left * d - d == (left - 1) * d;
    assert (left - 1) * d >= (left - 1) * q;
  }

  lemma SliceFair(remaining: int, left: int, floor: int)
    requires remaining > 0 && left >= 1 && floor > 0
    ensures FairSlice(BudgetSlice(remaining, left, floor), remaining, left, floor)
  {
    ShareInside(remaining, left);
  }

  // ---- theorems about one run ----

  /** The time spent never exceeds the budget. */
  lemma {:induction false} WithinBudget(remaining: int, i: nat, n: nat, floor: int, dial: Dialer)
    requires floor > 0 && i <= n && remaining >= 0 && Punctual(dial)
    ensures 0 <= RunFrom(remaining, i, n, floor, dial).left <= remaining
    decreases n - i
  {
    if i < n && remaining > 0 {
      var slice := BudgetSlice(remaining, n - i, floor);
      var a := dial(i, slice);
      if !a.connected { WithinBudget(remaining - a.elapsed, i + 1, n, floor, dial); }
    }
  }

  lemma {:induction false} LeftAfterFirst(budget: int, i: nat, slices: seq<int>, dial: Dialer, j: nat)
    requires 0 < j <= |slices|
    ensures LeftBefore(budget, i, slices, dial, j) ==
      LeftBefore(budget - dial(i, slices[0]).elapsed, i + 1, slices[1..], dial, j - 1)
  {
    if j > 1 { LeftAfterFirst(budget, i, slices, dial, j - 1); }
  }

  /** Every slice of a run from candidate `i` on is fair at its turn. */
  ghost predicate FairFrom(slices: seq<int>, budget: int, i: nat, n: nat, floor: int, dial: Dialer) {
    i + |slices| <= n && forall j :: 0 <= j < |slices| ==> FairAt(slices, budget, i, n, floor, dial, j)
  }

  ghost predicate FairAt(slices: seq<int>, budget: int, i: nat, n: nat, floor: int, dial: Dialer, j: nat)
    requires j < |slices| && i + |slices| <= n
  {
    FairSlice(slices[j], LeftBefore(budget, i, slices, dial, j), n - (i + j), floor)
  }

  lemma FairGrows(slice: int, rest: seq<int>, budget: int, i: nat, n: nat, floor: int, dial: Dialer)
    requires i < n && FairSlice(slice, budget, n - i, floor)
    requires FairFrom(rest, budget - dial(i, slice).elapsed, i + 1, n, floor, dial)
    ensures FairFrom([slice] + rest, budget, i, n, floor, dial)
  {
    var slices, left := [slice] + rest, budget - dial(i, slice).elapsed;
    assert slices[1..] == rest;
    forall j | 0 <= j < |slices| ensures FairAt(slices, budget, i, n, floor, dial, j) {
      if j > 0 {
        assert FairAt(rest, left, i + 1, n, floor, dial, j - 1);
        LeftAfterFirst(budget, i, slices, dial, j);
        assert i + 1 + (j - 1) == i + j;
      }
    }
  }

  /** Whatever the budget, every attempt made gets at least the floor or everything that was left, at least an even
      share of what was left, and no more than that asks for. */
  lemma {:induction false} EverySliceFair(budget: int, i: nat, n: nat, floor: int, dial: Dialer)
    requires floor > 0 && i <= n
    ensures FairFrom(RunFrom(budget, i, n, floor, dial).slices, budget, i, n, floor, dial)
    decreases n - i
  {
    if i < n && budget > 0 {
      var slice := BudgetSlice(budget, n - i, floor);
      SliceFair(budget, n - i, floor);
      var left := budget - dial(i, slice).elapsed;
      if dial(i, slice).connected {
        FairGrows(slice, [], budget, i, n, floor, dial);
      } else {
        EverySliceFair(left, i + 1, n, floor, dial);
        FairGrows(slice, RunFrom(left, i + 1, n, floor, dial).slices, budget, i, n, floor, dial);
      }
    }
  }

  /** The attempts are made one after the other, only the last may have connected, and the run ends when one does,
      when no candidate is left or when no time is. */
  ghost predicate InTurn(run: Run, budget: int, i: nat, n: nat, dial: Dialer) {
    var slices := run.slices;
    && |slices| <= n - i && run.left == LeftBefore(budget, i, slices, dial, |slices|)
    && (forall j :: 0 <= j < |slices| - 1 ==> !dial(i + j, slices[j]).connected)
    && (run.connected <==> |slices| > 0 && dial(i + |slices| - 1, slices[|slices| - 1]).connected)
    && (!run.connected ==> |slices| == n - i || run.left <= 0)
  }

  lemma InTurnGrows(slice: int, rest: Run, budget: int, i: nat, n: nat, dial: Dialer)
    requires i < n && InTurn(rest, budget - dial(i, slice).elapsed, i + 1, n, dial) && !dial(i, slice).connected
    ensures InTurn(Run([slice] + rest.slices, rest.left, rest.connected), budget, i, n, dial)
  {
    var slices := [slice] + rest.slices;
    LeftAfterFirst(budget, i, slices, dial, |slices|);
    assert slices[1..] == rest.slices;
    forall j | 0 <= j < |slices| - 1 ensures !dial(i + j, slices[j]).connected {
      if j > 0 { assert slices[j] == rest.slices[j - 1] && i + j == i + 1 + (j - 1); }
    }
  }

  lemma {:induction false} RunInTurn(budget: int, i: nat, n: nat, floor: int, dial: Dialer)
    requires floor > 0 && i <= n
    ensures InTurn(RunFrom(budget, i, n, floor, dial), budget, i, n, dial)
    decreases n - i
  {
    if i < n && budget > 0 {
      var slice := BudgetSlice(budget, n - i, floor);
      var a := dial(i, slice);
      if a.connected {
        LeftAfterFirst(budget, i, [slice], dial, 1);
      } else {
        RunInTurn(budget - a.elapsed, i + 1, n, floor, dial);
        InTurnGrows(slice, RunFrom(budget - a.elapsed, i + 1, n, floor, dial), budget, i, n, dial);
      }
    }
  }

  /** Every slice of a run over `n` candidates is fair at its turn. */
  ghost predicate SlicesFair(slices: seq<int>, budget: int, n: nat, floor: int, dial: Dialer) {
    FairFrom(slices, budget, 0, n, floor, dial)
  }

  lemma CeilStep(remaining: int, spent: int, floor: int)
    requires floor > 0 && spent <= floor
    ensures CeilDiv(remaining - spent, floor) >= CeilDiv(remaining, floor) - 1
  {
    var q := CeilDiv(remaining, floor);
    DivBounds(remaining + floor - 1, floor);
    assert floor * (q - 1) == floor * q - floor;
    DivAtLeast(remaining - spent + floor - 1, floor, q - 1);
  }

  lemma CeilAtLeast(remaining: int, floor: int, q: int)
    requires floor > 0 && floor * q <= remaining
    ensures CeilDiv(remaining, floor) >= q
  {
    DivAtLeast(remaining + floor - 1, floor, q);
  }

  lemma ShareCoversFloors(remaining: int, left: int, spent: int, floor: int)
    requires floor > 0 && left > 1 && 0 <= spent <= remaining / left && floor <= remaining / left
    ensures CeilDiv(remaining - spent, floor) >= left - 1
  {
    DivBounds(remaining, left);
    Scale(left, floor, remaining / left);
    ShareKeeps(remaining, left, spent, floor);
    CeilAtLeast(remaining - spent, floor, left - 1);
  }

  lemma Scale(p: int, a: int, b: int)
    requires p >= 0 && a <= b
    ensures p * a <= p * b
  {}

  /** An attempt uses up at most one of the attempts the budget still guarantees. */
  lemma EnoughStep(remaining: int, left: int, spent: int, floor: int)
    requires floor > 0 && remaining > 0 && left >= 1 && 0 <= spent <= BudgetSlice(remaining, left, floor)
    ensures 1 + Min(left - 1, CeilDiv(remaining - spent, floor)) >= Min(left, CeilDiv(remaining, floor))
  {
    SliceCost(remaining, left, floor);
    var slice := BudgetSlice(remaining, left, floor);
    if slice <= floor {
      CeilStep(remaining, spent, floor);
    } else if left > 1 {
      ShareCoversFloors(remaining, left, spent, floor);
    } else {
      CeilAtLeast(remaining - spent, floor, 0);
    }
  }

  /** When no attempt connects, at least min(candidates, ceil(budget / floor)) of them are made. */
  lemma {:induction false} EnoughAttempts(remaining: int, i: nat, n: nat, floor: int, dial: Dialer)
    requires floor > 0 && i <= n && Punctual(dial)
    requires !RunFrom(remaining, i, n, floor, dial).connected
    ensures |RunFrom(remaining, i, n, floor, dial).slices| >= Min(n - i, CeilDiv(remaining, floor))
    decreases n - i
  {
    if remaining <= 0 {
      DivAtMost(remaining + floor - 1, floor, 0);
    } else if i < n {
      var left, slice := n - i, BudgetSlice(remaining, n - i, floor);
      var a := dial(i, slice);
      EnoughAttempts(remaining - a.elapsed, i + 1, n, floor, dial);
      EnoughStep(remaining, left, a.elapsed, floor);
    }
  }

  /** When the budget covers a floor per candidate, every attempt made gets at least an even share of the
      whole budget. */
  lemma {:induction false} FairShare(remaining: int, i: nat, n: nat, floor: int, dial: Dialer, share: int)
    requires floor > 0 && i <= n && Punctual(dial)
    requires share >= floor && (n - i) * share <= remaining
    ensures forall j :: 0 <= j < |RunFrom(remaining, i, n, floor, dial).slices| ==>
      RunFrom(remaining, i, n, floor, dial).slices[j] >= share
    decreases n - i
  {
    if i < n && remaining > 0 {
      var left, slice := n - i, BudgetSlice(remaining, n - i, floor);
      DivAtLeast(remaining, left, share);
      assert slice >= share by {
        if left == 1 { assert left * share == share; }
      }
      var a := dial(i, slice);
      if !a.connected {
        if left > 1 {
          assert slice == remaining / left by { SliceIsShare(remaining, left, floor); }
          ShareKeeps(remaining, left, a.elapsed, share);
        }
        FairShare(remaining - a.elapsed, i + 1, n, floor, dial, share);
      }
    }
  }

  lemma SliceIsShare(remaining: int, left: int, floor: int)
    requires remaining > 0 && left > 1 && floor > 0 && remaining / left >= floor
    ensures BudgetSlice(remaining, left, floor) == remaining / left
  {
    DivAtMost(remaining, left, remaining);
  }

  /** The budget theorem for one list of candidates. */
  lemma BudgetTheorem(budget: int, n: nat, floor: int, dial: Dialer)
    requires budget > 0 && n > 0 && floor > 0 && Punctual(dial)
    ensures var run := RunFrom(budget, 0, n, floor, dial);
      && 0 <= run.left
      && SlicesFair(run.slices, budget, n, floor, dial)
      && (!run.connected ==> |run.slices| >= Min(n, CeilDiv(budget, floor)))
      && (budget >= n * floor ==>
            (forall j :: 0 <= j < |run.slices| ==> run.slices[j] >= budget / n) &&
            (!run.connected ==> |run.slices| >= n))
  {
    var run := RunFrom(budget, 0, n, floor, dial);
    WithinBudget(budget, 0, n, floor, dial);
    EverySliceFair(budget, 0, n, floor, dial);
    if !run.connected { EnoughAttempts(budget, 0, n, floor, dial); }
    if budget >= n * floor {
      DivBounds(budget, n);
      DivAtLeast(budget, n, floor);
      FairShare(budget, 0, n, floor, dial, budget / n);
      assert floor * n == n * floor;
      CeilAtLeast(budget, floor, n);
    }
  }

  // ---- the dialing loop ----

  datatype Outcome = Connected(attempt: nat) | CapInvalid | NoAddresses | Failed

  /** Dials up to `attemptCap` of `candidates` in order within `budget`. */
  method DialCandidates(candidates: nat, attemptCap: int, budget: int, floor: int, dial: Dialer)
    returns (outcome: Outcome, attempts: nat, left: int)
    requires floor > 0
    ensures attemptCap <= 0 ==> outcome == CapInvalid && attempts == 0 && left == budget
    ensures attemptCap > 0 ==>
      var run := RunFrom(budget, 0, Min(candidates, attemptCap), floor, dial);
      && attempts == |run.slices| && left == run.left
      && (outcome.Connected? <==> run.connected)
      && (outcome.Connected? ==> outcome.attempt == attempts)
      && (outcome.NoAddresses? <==> candidates == 0)
      && !outcome.CapInvalid?
  {
    left := budget;
    if attemptCap <= 0 { return CapInvalid, 0, left; }
    var n: nat := Min(candidates, attemptCap);
    attempts := 0;
    for i := 0 to n
      invariant attempts == i
      invariant var run, rest := RunFrom(budget, 0, n, floor, dial), RunFrom(left, i, n, floor, dial);
        |run.slices| == i + |rest.slices| && run.left == rest.left && run.connected == rest.connected
    {
      if left <= 0 { return Failed, attempts, left; }
      attempts := attempts + 1;
      var a := dial(i, BudgetSlice(left, n - i, floor));
      left := left - a.elapsed;
      if a.connected { return Connected(i + 1), attempts, left; }
    }
    return (if n == 0 then NoAddresses else Failed), attempts, left;
  }

  // ---- egresses around candidates ----

  /** One egress attempt inside its slice: resolution, then the candidates the answer left, with the rest of it. */
  function EgressDialer(resolve: (nat, int) -> int, candidates: (nat, int) -> nat, floor: int,
                        dials: nat -> Dialer): Dialer
    requires floor > 0
  {
    (i: nat, slice: int) =>
      var inner := RunFrom(slice - resolve(i, slice), 0, candidates(i, slice), floor, dials(i));
      Attempt(slice - inner.left, inner.connected)
  }

  ghost predicate ResolvesInTime(resolve: (nat, int) -> int) {
    forall i: nat, slice: int :: slice >= 0 ==> 0 <= resolve(i, slice) <= slice
  }

  ghost predicate AllPunctual(dials: nat -> Dialer) { forall i: nat :: Punctual(dials(i)) }

  /** An egress stays inside its slice, so the theorems about one list of candidates hold of the list of egresses. */
  lemma EgressPunctual(resolve: (nat, int) -> int, candidates: (nat, int) -> nat, floor: int, dials: nat -> Dialer)
    requires floor > 0 && ResolvesInTime(resolve) && AllPunctual(dials)
    ensures Punctual(EgressDialer(resolve, candidates, floor, dials))
  {
    var egress := EgressDialer(resolve, candidates, floor, dials);
    forall i: nat, slice: int | slice >= 0 ensures 0 <= egress(i, slice).elapsed <= slice {
      assert 0 <= resolve(i, slice) <= slice;
      WithinBudget(slice - resolve(i, slice), 0, candidates(i, slice), floor, dials(i));
    }
  }

  /** When an egress's lookup takes `lookup` of its slice, and the timeout covers that and a floor for every
      candidate on every egress, each candidate it dials gets at least an even share of what the lookup leaves of
      an even share of the timeout. */
  lemma NestedFairShare(timeout: int, egresses: nat, perEgress: nat, floor: int, lookup: int, egress: Dialer,
                        dial: Dialer, outer: Run, inner: Run, i: nat, j: nat)
    requires floor > 0 && egresses > 0 && perEgress > 0 && lookup >= 0
    requires timeout >= egresses * (perEgress * floor + lookup)
    requires Punctual(egress) && Punctual(dial)
    requires outer == RunFrom(timeout, 0, egresses, floor, egress) && i < |outer.slices|
    requires inner == RunFrom(outer.slices[i] - lookup, 0, perEgress, floor, dial) && j < |inner.slices|
    ensures inner.slices[j] >= (timeout / egresses - lookup) / perEgress
  {
    FloorTimes(perEgress, floor);
    OuterShare(timeout, egresses, perEgress * floor + lookup, floor, egress, outer, i);
    InnerShare(outer.slices[i] - lookup, timeout / egresses - lookup, perEgress, floor, dial, inner, j);
  }

  lemma FloorTimes(n: nat, floor: int)
    requires n > 0 && floor > 0
    ensures n * floor >= floor
  {}

  lemma OuterShare(timeout: int, n: nat, w: int, floor: int, egress: Dialer, outer: Run, i: nat)
    requires floor > 0 && n > 0 && w >= floor && timeout >= n * w && Punctual(egress)
    requires outer == RunFrom(timeout, 0, n, floor, egress) && i < |outer.slices|
    ensures outer.slices[i] >= timeout / n >= w
  {
    DivBounds(timeout, n);
    DivAtLeast(timeout, n, w);
    FairShare(timeout, 0, n, floor, egress, timeout / n);
  }

  lemma InnerShare(slice: int, share: int, n: nat, floor: int, dial: Dialer, inner: Run, j: nat)
    requires floor > 0 && n > 0 && slice >= share >= n * floor && Punctual(dial)
    requires inner == RunFrom(slice, 0, n, floor, dial) && j < |inner.slices|
    ensures inner.slices[j] >= share / n
  {
    DivBounds(share, n);
    DivAtLeast(share, n, floor);
    FairShare(slice, 0, n, floor, dial, share / n);
  }
}
