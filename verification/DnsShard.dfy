/** The DNS cache's mutable structures, updated in place: a shard's entry map with its class counters,
    and the flight table with its per-egress counters. */
module DnsShard {
  import Ordering
  import opened Options
  import opened DnsModel

  lemma {:induction false} SweepSnoc(s: Shard, gone: seq<Key>, k: Key)
    requires forall i :: 0 <= i < |gone| ==> gone[i] in s.entries
    requires forall i, j :: 0 <= i < j < |gone| ==> gone[i] != gone[j]
    requires k in s.entries && k !in gone
    ensures forall i :: 0 <= i < |gone + [k]| ==> (gone + [k])[i] in s.entries
    ensures forall i, j :: 0 <= i < j < |gone + [k]| ==> (gone + [k])[i] != (gone + [k])[j]
    ensures k in Sweep(s, gone).entries && Sweep(s, gone).entries[k] == s.entries[k]
    ensures Sweep(s, gone + [k]) == Delete(Sweep(s, gone), k)
    decreases |gone|
  {
    if gone != [] {
      SweepSnoc(Delete(s, gone[0]), gone[1..], k);
      assert (gone + [k])[1..] == gone[1..] + [k];
    }
  }

  /** `gone` lists exactly the dead entries among those visited, at most one per visit. */
  ghost predicate Swept(s: Shard, gone: seq<Key>, visited: set<Key>, now: Time) {
    && visited <= s.entries.Keys && |gone| <= |visited|
    && (forall i :: 0 <= i < |gone| ==> gone[i] in s.entries)
    && (forall k :: k in gone <==> k in visited && Dead(s.entries[k], now))
    && (forall i, j :: 0 <= i < j < |gone| ==> gone[i] != gone[j])
  }

  lemma VisitCount(entries: map<Key, Entry>, todo: set<Key>, limit: int)
    requires todo <= entries.Keys && |entries.Keys| - |todo| == SWEEP_LIMIT - limit
    requires limit >= 0 && (todo == {} || limit == 0)
    ensures |entries.Keys - todo| == Ordering.Min(SWEEP_LIMIT, |entries|)
  {
    assert |entries.Keys - todo| == |entries.Keys| - |todo|;
  }

  lemma SweptResult(s: Shard, gone: seq<Key>, visited: set<Key>, now: Time)
    requires Accounted(s) && Swept(s, gone, visited, now) && |visited| <= SWEEP_LIMIT
    ensures CanSweep(s, gone, now) && Accounted(Sweep(s, gone))
  {
    SweepAccounted(s, gone);
    assert forall i :: 0 <= i < |gone| ==> gone[i] in gone;
  }

  lemma SweptStep(s: Shard, gone: seq<Key>, visited: set<Key>, now: Time, k: Key)
    requires Accounted(s) && Swept(s, gone, visited, now) && k in s.entries && k !in visited
    ensures var gone' := if Dead(s.entries[k], now) then gone + [k] else gone;
      Swept(s, gone', visited + {k}, now) && (forall i :: 0 <= i < |gone'| ==> gone'[i] in s.entries)
    ensures k in Sweep(s, gone).entries && Sweep(s, gone).entries[k] == s.entries[k]
    ensures Dead(s.entries[k], now) ==> Sweep(s, gone + [k]) == Delete(Sweep(s, gone), k)
  {
    assert forall i :: 0 <= i < |gone| ==> gone[i] in gone;
    SweepSnoc(s, gone, k);
  }

  class CacheShard {
    var entries: map<Key, Entry>
    var positive: int
    var negative: int
    const positiveCap: int
    const negativeCap: int

    ghost function Value(): Shard
      reads this
    {
      Shard(entries, positive, negative, positiveCap, negativeCap)
    }

    /** The counters match the entries and respect the capacities. */
    ghost predicate Valid()
      reads this
    {
      Accounted(Value())
    }

    constructor (positiveCap: int, negativeCap: int)
      requires positiveCap > 0 && negativeCap > 0
      ensures Valid() && Value() == Shard(map[], 0, 0, positiveCap, negativeCap)
    {
      entries, positive, negative := map[], 0, 0;
      this.positiveCap, this.negativeCap := positiveCap, negativeCap;
      new;
      assert forall c: bool :: Members(Value(), c) == {};
    }

    method DeleteLocked(k: Key)
      requires Valid() && k in entries
      modifies this
      ensures Valid() && Value() == Delete(old(Value()), k)
    {
      DeleteAccounted(Value(), k);
      if IsPositive(entries[k]) { positive := positive - 1; } else { negative := negative - 1; }
      entries := entries - {k};
    }

    method TakeEntry(p: Policy, k: Key, now: Time) returns (e: Entry, found: bool)
      requires Valid()
      modifies this
      ensures Valid() && (e, found, Value()) == Take(p, old(Value()), k, now)
    {
      if k !in entries { return NO_ENTRY, false; }
      e := entries[k];
      if now < e.result.expiresAt { return e, true; }
      if e.result.rcode == Transient && CanServeStale(p, e, now) { return e, false; }
      DeleteLocked(k);
      return e, false;
    }

    method PeekFresh(k: Key, now: Time) returns (e: Entry, ok: bool)
      ensures ok <==> k in entries && Fresh(entries[k], now)
      ensures ok ==> e == entries[k]
    {
      e, ok := NO_ENTRY, false;
      if k in entries {
        e := entries[k];
        ok := now < e.result.expiresAt;
      }
    }

    /** Visits four entries in an arbitrary order, or all if there are fewer, and deletes exactly the dead ones
        among them. */
    method SweepLocked(now: Time) returns (ghost gone: seq<Key>, ghost visited: set<Key>)
      requires Valid()
      modifies this
      ensures Valid() && CanSweep(old(Value()), gone, now) && Value() == Sweep(old(Value()), gone)
      ensures visited <= old(entries).Keys && |visited| == Ordering.Min(SWEEP_LIMIT, |old(entries)|)
      ensures forall k :: k in gone <==> k in visited && Dead(old(entries)[k], now)
    {
      ghost var before := Value();
      gone := [];
      var todo, limit := entries.Keys, SWEEP_LIMIT;
      while todo != {} && limit > 0
        invariant 0 <= limit && todo <= before.entries.Keys && |before.entries.Keys| - |todo| == SWEEP_LIMIT - limit
        invariant Swept(before, gone, before.entries.Keys - todo, now) && Value() == Sweep(before, gone)
        decreases limit
      {
        var k :| k in todo;
        gone := Visit(k, now, before, gone, todo);
        todo, limit := todo - {k}, limit - 1;
      }
      visited := before.entries.Keys - todo;
      VisitCount(before.entries, todo, limit);
      SweptResult(before, gone, visited, now);
    }

    /** One visit of a sweep that began with the shard as `before` and has `todo` left to visit. */
    method Visit(k: Key, now: Time, ghost before: Shard, ghost gone: seq<Key>, ghost todo: set<Key>)
      returns (ghost gone': seq<Key>)
      requires Accounted(before) && todo <= before.entries.Keys && k in todo
      requires Swept(before, gone, before.entries.Keys - todo, now) && Value() == Sweep(before, gone)
      modifies this
      ensures Swept(before, gone', before.entries.Keys - (todo - {k}), now) && Value() == Sweep(before, gone')
    {
      SweepAccounted(before, gone);
      SweptStep(before, gone, before.entries.Keys - todo, now, k);
      assert before.entries.Keys - (todo - {k}) == before.entries.Keys - todo + {k};
      gone' := gone;
      if !(now < entries[k].result.expiresAt) && !(now < entries[k].staleUntil) {
        DeleteLocked(k);
        gone' := gone + [k];
      }
    }

    /** An arbitrary member of the class, if it has one. */
    method FindVictim(class_: bool) returns (victim: Option<Key>)
      ensures victim.Some? ==> victim.value in entries && IsPositive(entries[victim.value]) == class_
      ensures victim.None? ==> forall v :: v in entries ==> IsPositive(entries[v]) != class_
    {
      var todo := entries.Keys;
      while todo != {}
        invariant todo <= entries.Keys
        invariant forall v :: v in entries && v !in todo ==> IsPositive(entries[v]) != class_
        decreases todo
      {
        var v :| v in todo;
        if IsPositive(entries[v]) == class_ { return Some(v); }
        todo := todo - {v};
      }
      return None;
    }

    /** Evicts one member of a class that is at capacity. */
    method MakeRoom(class_: bool) returns (ghost victim: Option<Key>)
      requires Valid()
      modifies this
      ensures Valid() && CanEvict(old(Value()), class_, victim)
      ensures Value() == if victim.Some? then Delete(old(Value()), victim.value) else old(Value())
    {
      victim := None;
      if (if class_ then positive else negative) >= (if class_ then positiveCap else negativeCap) {
        var v := FindVictim(class_);
        victim := v;
        if v.Some? { DeleteLocked(v.value); }
      }
    }

    /** Inserting sweeps, clears the key, evicts at capacity, stores, and keeps the accounting exact. */
    method Insert(k: Key, e: Entry, now: Time) returns (ghost gone: seq<Key>, ghost victim: Option<Key>)
      requires Valid()
      modifies this
      ensures Valid() && CanInsert(old(Value()), k, e, now, gone, victim)
      ensures Value() == DnsModel.Insert(old(Value()), k, e, now, gone, victim)
    {
      ghost var visited;
      gone, visited := SweepLocked(now);
      if k in entries { DeleteLocked(k); }
      assert Value() == Drop(Sweep(old(Value()), gone), k);
      victim := MakeRoom(IsPositive(e));
      InsertAccounted(old(Value()), k, e, now, gone, victim);
      Store(k, e);
    }

    method Store(k: Key, e: Entry)
      modifies this
      ensures Value() == Put(old(Value()), k, e)
    {
      entries := entries[k := e];
      if IsPositive(e) { positive := positive + 1; } else { negative := negative + 1; }
    }

    method Invalidate(k: Key)
      requires Valid()
      modifies this
      ensures Valid() && Value() == Drop(old(Value()), k)
    {
      if k in entries { DeleteLocked(k); }
    }
  }

  /** Joining a running flight, the fresh entry the re-check found, a new flight, or a refusal. */
  datatype Started = Joined(flight: nat) | Cached(entry: Entry) | Launched(flight: nat) | Refused

  /** Each counter is the egress's number of flights; there is none for an egress without flights. */
  ghost predicate Tallied(flights: map<Key, nat>, pending: map<string, int>, maxPending: int) {
    forall e :: TalliedOn(flights, pending, maxPending, e)
  }

  ghost predicate TalliedOn(flights: map<Key, nat>, pending: map<string, int>, maxPending: int, e: string) {
    |InFlight(flights, e)| <= maxPending &&
    (if e in pending then pending[e] == |InFlight(flights, e)| > 0 else InFlight(flights, e) == {})
  }

  lemma LaunchTallied(flights: map<Key, nat>, pending: map<string, int>, maxPending: int, k: Key, id: nat, n: int)
    requires Tallied(flights, pending, maxPending) && k !in flights
    requires n == (if k.egress in pending then pending[k.egress] else 0) < maxPending
    ensures Tallied(flights[k := id], pending[k.egress := n + 1], maxPending)
  {
    var flights', pending' := flights[k := id], pending[k.egress := n + 1];
    forall e ensures TalliedOn(flights', pending', maxPending, e) {
      assert TalliedOn(flights, pending, maxPending, e);
      assert InFlight(flights', e) == InFlight(flights, e) + if e == k.egress then {k} else {};
    }
  }

  lemma FinishTallied(flights: map<Key, nat>, pending: map<string, int>, maxPending: int, k: Key)
    requires Tallied(flights, pending, maxPending) && k in flights
    ensures k.egress in pending
    ensures var left := pending[k.egress] - 1;
      Tallied(flights - {k}, if left <= 0 then pending - {k.egress} else pending[k.egress := left], maxPending)
  {
    assert k in InFlight(flights, k.egress) && TalliedOn(flights, pending, maxPending, k.egress);
    var left := pending[k.egress] - 1;
    var pending' := if left <= 0 then pending - {k.egress} else pending[k.egress := left];
    forall e ensures TalliedOn(flights - {k}, pending', maxPending, e) {
      assert TalliedOn(flights, pending, maxPending, e);
      assert InFlight(flights - {k}, e) == InFlight(flights, e) - if e == k.egress then {k} else {};
    }
  }

  class FlightTable {
    var flights: map<Key, nat>
    var pendingByEgress: map<string, int>
    const maxPending: int

    ghost predicate Valid()
      reads this
    {
      Tallied(flights, pendingByEgress, maxPending)
    }

    constructor (maxPending: int)
      requires maxPending > 0
      ensures Valid() && flights == map[] && this.maxPending == maxPending
    {
      flights, pendingByEgress := map[], map[];
      this.maxPending := maxPending;
      new;
      assert forall e :: InFlight(flights, e) == {};
    }

    /** Joins the key's flight if there is one; otherwise looks at the key's shard again, and launches `id` if
        nothing fresh is there, unless the egress is at its cap. */
    method Start(k: Key, id: nat, shard: CacheShard, now: Time) returns (r: Started)
      requires Valid() && maxPending > 0
      modifies this
      ensures Valid()
      ensures r.Joined? <==> k in old(flights)
      ensures r.Joined? ==> r.flight == old(flights)[k]
      ensures r.Cached? <==> k !in old(flights) && k in shard.entries && Fresh(shard.entries[k], now)
      ensures r.Cached? ==> r.entry == shard.entries[k]
      ensures r.Refused? <==> !r.Joined? && !r.Cached? && |InFlight(old(flights), k.egress)| == maxPending
      ensures r.Launched? ==> r.flight == id
      ensures flights == if r.Launched? then old(flights)[k := id] else old(flights)
    {
      if k in flights { return Joined(flights[k]); }
      var e, ok := shard.PeekFresh(k, now);
      if ok { return Cached(e); }
      var pending := if k.egress in pendingByEgress then pendingByEgress[k.egress] else 0;
      assert TalliedOn(flights, pendingByEgress, maxPending, k.egress);
      if pending >= maxPending { return Refused; }
      LaunchTallied(flights, pendingByEgress, maxPending, k, id, pending);
      flights := flights[k := id];
      pendingByEgress := pendingByEgress[k.egress := pending + 1];
      return Launched(id);
    }

    method Finish(k: Key)
      requires Valid() && k in flights
      modifies this
      ensures Valid() && flights == old(flights) - {k}
    {
      FinishTallied(flights, pendingByEgress, maxPending, k);
      var left := pendingByEgress[k.egress] - 1;
      flights := flights - {k};
      pendingByEgress := if left <= 0 then pendingByEgress - {k.egress} else pendingByEgress[k.egress := left];
    }
  }
}
