/** The values the DNS cache works on, and one shard's critical sections as functions of its state. */
module DnsModel {
  import opened Options
  import opened NetAddr

  /** Clock readings; 0 is the zero time that an unset field holds. */
  type Time = nat

  datatype RCode = Success | NxDomain | NoData | Transient | Other
  datatype Result = Result(addrs: seq<Addr>, expiresAt: Time, rcode: RCode)
  datatype Err = NoErr | ResolveError

  const NO_RESULT := Result([], 0, Success)

  datatype Key = Key(host: string, family: nat, egress: string, resolver: string, generation: nat)

  datatype Entry = Entry(result: Result, err: Err, stale: Result, staleUntil: Time)

  const NO_ENTRY := Entry(NO_RESULT, NoErr, NO_RESULT, 0)

  datatype Policy = Policy(
    positiveCapacity: int, negativeCapacity: int, maxPending: int,
    minPositiveTtl: int, maxPositiveTtl: int, negativeTtl: int, transientTtl: int,
    staleWindow: int, staleTransient: bool)

  /** The bounds every constructed cache's policy has passed. */
  predicate ValidPolicy(p: Policy) {
    && p.positiveCapacity > 0 && p.negativeCapacity > 0 && p.maxPending > 0
    && p.minPositiveTtl > 0 && p.maxPositiveTtl >= p.minPositiveTtl
    && p.negativeTtl > 0 && p.transientTtl > 0 && p.staleWindow >= 0
  }

  predicate CanServeStale(p: Policy, e: Entry, now: Time) {
    p.staleTransient && |e.stale.addrs| > 0 && now < e.staleUntil
  }

  predicate AnyAddr(a: Addr) { true }

  /** A resolver's raw outcome becomes one of the four cacheable classes with a bounded expiry. */
  function Normalize(p: Policy, raw: Result, failed: bool, now: Time): (r: (Result, Err))
    requires ValidPolicy(p)
    ensures r.0.expiresAt > now && r.0.rcode != Other
    ensures r.0.rcode == Success <==> r.0.addrs != []
    ensures r.1 == ResolveError <==> r.0.rcode == Transient
    ensures r.0.rcode == Transient <==> failed || raw.rcode in {Transient, Other}
    ensures r.0.rcode == NxDomain <==> !failed && raw.rcode == NxDomain
    ensures r.0.rcode == Success ==> raw.rcode == Success && r.0.addrs == Distil(raw.addrs, AnyAddr)
    ensures r.0.rcode == NoData && raw.rcode == Success ==> forall a :: a in raw.addrs ==> !Usable(a)
    ensures r.0.rcode == Success ==> now + p.minPositiveTtl <= r.0.expiresAt <= now + p.maxPositiveTtl
    ensures r.0.rcode == Success ==> r.0.expiresAt <= raw.expiresAt || r.0.expiresAt == now + p.minPositiveTtl
    ensures r.0.rcode == Success ==> r.0.expiresAt >= raw.expiresAt || r.0.expiresAt == now + p.maxPositiveTtl
    ensures r.0.rcode in {NxDomain, NoData} ==> r.0.expiresAt == now + p.negativeTtl
    ensures r.0.rcode == Transient ==> r.0.expiresAt == now + p.transientTtl
  {
    var gaveUp := (Result([], now + p.transientTtl, Transient), ResolveError);
    if failed then gaveUp
    else
      var addrs := Distil(raw.addrs, AnyAddr);
      assert forall a :: a in raw.addrs && Usable(a) ==> Kept(a, Unmap(a), AnyAddr);
      assert addrs == [] ==> forall a :: a in raw.addrs ==> !Usable(a) || Unmap(a) in addrs;
      var rcode := if raw.rcode == Success && |addrs| == 0 then NoData else raw.rcode;
      match rcode
      case Success =>
        var ttl := raw.expiresAt - now;
        var atLeast := if ttl < p.minPositiveTtl then p.minPositiveTtl else ttl;
        var ttl' := if atLeast > p.maxPositiveTtl then p.maxPositiveTtl else atLeast;
        (Result(addrs, now + ttl', Success), NoErr)
      case NxDomain => (Result([], now + p.negativeTtl, NxDomain), NoErr)
      case NoData => (Result([], now + p.negativeTtl, NoData), NoErr)
      case Transient => gaveUp
      case Other => gaveUp
  }

  /** The entry a finished flight stores: a success opens a stale horizon, a transient failure keeps the old one. */
  function BuildEntry(p: Policy, result: Result, err: Err, stale: Result, staleUntil: Time, now: Time): Entry
    requires ValidPolicy(p)
  {
    if result.rcode == Success then Entry(result, err, NO_RESULT, result.expiresAt + p.staleWindow)
    else if result.rcode == Transient && |stale.addrs| > 0 && now < staleUntil then
      Entry(result, err, stale, staleUntil)
    else Entry(result, err, NO_RESULT, 0)
  }

  /** The keys of one egress in a flight table. */
  ghost function InFlight(table: map<Key, nat>, egress: string): set<Key> {
    set k | k in table && k.egress == egress
  }

  // ---- one shard ----

  datatype Shard = Shard(entries: map<Key, Entry>, positive: int, negative: int, positiveCap: int, negativeCap: int)

  predicate IsPositive(e: Entry) { e.result.rcode == Success }

  function Count(s: Shard, positive: bool): int { if positive then s.positive else s.negative }

  function Capacity(s: Shard, positive: bool): int { if positive then s.positiveCap else s.negativeCap }

  function Bump(s: Shard, positive: bool, delta: int): Shard {
    if positive then s.(positive := s.positive + delta) else s.(negative := s.negative + delta)
  }

  function Delete(s: Shard, k: Key): Shard
    requires k in s.entries
  {
    Bump(s.(entries := s.entries - {k}), IsPositive(s.entries[k]), -1)
  }

  predicate Fresh(e: Entry, now: Time) { now < e.result.expiresAt }

  /** takeEntry: the entry seen, whether it is fresh, and the shard left behind. */
  function Take(p: Policy, s: Shard, k: Key, now: Time): (Entry, bool, Shard) {
    if k !in s.entries then (NO_ENTRY, false, s)
    else
      var e := s.entries[k];
      if Fresh(e, now) then (e, true, s)
      else if e.result.rcode == Transient && CanServeStale(p, e, now) then (e, false, s)
      else (e, false, Delete(s, k))
  }

  predicate Dead(e: Entry, now: Time) { e.result.expiresAt <= now && e.staleUntil <= now }

  const SWEEP_LIMIT := 4

  /** Deletes `gone` one by one; a sweep may pick any distinct dead entries within its limit. */
  function Sweep(s: Shard, gone: seq<Key>): Shard
    requires forall i :: 0 <= i < |gone| ==> gone[i] in s.entries
    requires forall i, j :: 0 <= i < j < |gone| ==> gone[i] != gone[j]
    decreases |gone|
  {
    if gone == [] then s else Sweep(Delete(s, gone[0]), gone[1..])
  }

  predicate CanSweep(s: Shard, gone: seq<Key>, now: Time) {
    && |gone| <= SWEEP_LIMIT
    && (forall i :: 0 <= i < |gone| ==> gone[i] in s.entries && Dead(s.entries[gone[i]], now))
    && (forall i, j :: 0 <= i < j < |gone| ==> gone[i] != gone[j])
  }

  function Drop(s: Shard, k: Key): Shard {
    if k in s.entries then Delete(s, k) else s
  }

  function Put(s: Shard, k: Key, e: Entry): Shard {
    Bump(s.(entries := s.entries[k := e]), IsPositive(e), 1)
  }

  /** A victim is taken exactly when the class is at capacity and has a member. */
  predicate CanEvict(s: Shard, positive: bool, victim: Option<Key>) {
    match victim
    case Some(v) => Count(s, positive) >= Capacity(s, positive) && v in s.entries &&
      IsPositive(s.entries[v]) == positive
    case None => Count(s, positive) >= Capacity(s, positive) ==>
      forall v :: v in s.entries ==> IsPositive(s.entries[v]) != positive
  }

  predicate CanInsert(s: Shard, k: Key, e: Entry, now: Time, gone: seq<Key>, victim: Option<Key>) {
    CanSweep(s, gone, now) && CanEvict(Drop(Sweep(s, gone), k), IsPositive(e), victim)
  }

  function Insert(s: Shard, k: Key, e: Entry, now: Time, gone: seq<Key>, victim: Option<Key>): Shard
    requires CanInsert(s, k, e, now, gone, victim)
  {
    var cleared := Drop(Sweep(s, gone), k);
    Put(if victim.Some? then Delete(cleared, victim.value) else cleared, k, e)
  }

  // ---- accounting of one shard ----

  /** The keys of one class: the successes, or all others. */
  ghost function Members(s: Shard, positive: bool): set<Key> {
    set k | k in s.entries && (s.entries[k].result.rcode == Success) == positive
  }

  /** The counters are the real class sizes and respect the capacities. */
  ghost predicate Accounted(s: Shard) {
    && s.positiveCap > 0 && s.negativeCap > 0
    && (forall c: bool :: Count(s, c) == |Members(s, c)| <= Capacity(s, c))
  }

  lemma DeleteAccounted(s: Shard, k: Key)
    requires Accounted(s) && k in s.entries
    ensures Accounted(Delete(s, k))
    ensures Count(Delete(s, k), IsPositive(s.entries[k])) == Count(s, IsPositive(s.entries[k])) - 1
  {
    var t, c := Delete(s, k), IsPositive(s.entries[k]);
    assert Members(t, c) == Members(s, c) - {k};
    assert Members(t, !c) == Members(s, !c);
  }

  lemma {:induction false} SweepAccounted(s: Shard, gone: seq<Key>)
    requires Accounted(s)
    requires forall i :: 0 <= i < |gone| ==> gone[i] in s.entries
    requires forall i, j :: 0 <= i < j < |gone| ==> gone[i] != gone[j]
    ensures Accounted(Sweep(s, gone))
    ensures Sweep(s, gone).entries == s.entries - set k | k in gone
    ensures Sweep(s, gone).positiveCap == s.positiveCap && Sweep(s, gone).negativeCap == s.negativeCap
    decreases |gone|
  {
    if gone != [] {
      DeleteAccounted(s, gone[0]);
      SweepAccounted(Delete(s, gone[0]), gone[1..]);
      assert (set k | k in gone) == {gone[0]} + set k | k in gone[1..];
    }
  }

  lemma PutAccounted(s: Shard, k: Key, e: Entry)
    requires Accounted(s) && k !in s.entries && Count(s, IsPositive(e)) < Capacity(s, IsPositive(e))
    ensures Accounted(Put(s, k, e))
  {
    var t, c := Put(s, k, e), IsPositive(e);
    assert Members(t, c) == Members(s, c) + {k};
    assert Members(t, !c) == Members(s, !c);
  }

  /** Inserting keeps the counters exact and never exceeds a capacity, whatever was swept or evicted. */
  lemma InsertAccounted(s: Shard, k: Key, e: Entry, now: Time, gone: seq<Key>, victim: Option<Key>)
    requires Accounted(s) && CanInsert(s, k, e, now, gone, victim)
    ensures Accounted(Insert(s, k, e, now, gone, victim))
    ensures k in Insert(s, k, e, now, gone, victim).entries && Insert(s, k, e, now, gone, victim).entries[k] == e
  {
    var swept := Sweep(s, gone);
    SweepAccounted(s, gone);
    var cleared := Drop(swept, k);
    if k in swept.entries { DeleteAccounted(swept, k); }
    var c := IsPositive(e);
    match victim
    case Some(v) =>
      DeleteAccounted(cleared, v);
      PutAccounted(Delete(cleared, v), k, e);
    case None =>
      assert Count(cleared, c) >= Capacity(cleared, c) ==> Members(cleared, c) == {};
      PutAccounted(cleared, k, e);
  }

  // ---- capacity split ----

  /** The share of `total` that shard `index` of `shards` receives. */
  function DistributedCapacity(total: int, shards: int, index: int): int
    requires shards > 0
  {
    total / shards + if index < total % shards then 1 else 0
  }

  function SumCapacities(total: int, shards: int, upTo: nat): int
    requires shards > 0
  {
    if upTo == 0 then 0 else SumCapacities(total, shards, upTo - 1) + DistributedCapacity(total, shards, upTo - 1)
  }

  lemma {:induction false} SumPrefix(total: int, shards: int, upTo: nat)
    requires shards > 0
    ensures SumCapacities(total, shards, upTo) ==
      (total / shards) * upTo + if upTo <= total % shards then upTo else total % shards
  {
    if upTo > 0 {
      SumPrefix(total, shards, upTo - 1);
      assert (total / shards) * upTo == (total / shards) * (upTo - 1) + total / shards;
    }
  }

  /** The shares sum to the configured total, none is empty, no two differ by more than one, and earlier
      shards have the larger ones. */
  lemma CapacitiesSumToTotal(total: int, shards: int)
    requires 0 < shards <= total
    ensures SumCapacities(total, shards, shards) == total
    ensures forall i, j :: 0 <= i < shards && 0 <= j < shards ==>
      0 < DistributedCapacity(total, shards, i) <= DistributedCapacity(total, shards, j) + 1
    ensures forall i, j :: 0 <= i <= j < shards ==>
      DistributedCapacity(total, shards, i) >= DistributedCapacity(total, shards, j)
  {
    SumPrefix(total, shards, shards);
    assert total / shards >= 1;
  }
}
