/** Reconciling one tunnel's routes: the planner's operations carried out one by one, any of which may fail. */
module RouteReconcile {
  import opened Results
  import opened Options
  import opened Planner
  import opened Text

  const ROUTE_PROTOCOL := 186
  const EVIDENCE := "route protocol 186 + owned link alias"

  /** `other` stands for every attribute the reconciler does not look at. */
  datatype Route = Route(table: nat, link: nat, dst: Option<string>, protocol: nat, other: nat)

  function Destination(r: Route): string {
    match r.dst
    case None => "0.0.0.0/0"
    case Some(d) => d
  }

  function RouteId(r: Route): string {
    "table=" + (Dec(r.table) + "/" + ("link=" + Dec(r.link) + "/" + ("dst=" + Destination(r))))
  }

  lemma StripPrefix(p: string, a: string, b: string)
    requires p + a == p + b
    ensures a == b
  {
    assert a == (p + a)[|p|..] && b == (p + b)[|p|..];
  }

  /** Same table, link and destination; the kernel lists the default route without one. */
  ghost predicate SamePlace(a: Route, b: Route) {
    && a.table == b.table && a.link == b.link
    && (a.dst == b.dst || {a.dst, b.dst} == {None, Some("0.0.0.0/0")})
  }

  /** Two routes have the same identifier exactly when they are in the same place. */
  lemma RouteIdIdentifies(a: Route, b: Route)
    ensures RouteId(a) == RouteId(b) <==> SamePlace(a, b)
  {
    if RouteId(a) == RouteId(b) {
      DecHasDigits(a.table); DecHasDigits(b.table);
      DecHasDigits(a.link); DecHasDigits(b.link);
      var ra, rb := "link=" + Dec(a.link) + "/" + ("dst=" + Destination(a)),
        "link=" + Dec(b.link) + "/" + ("dst=" + Destination(b));
      StripPrefix("table=", Dec(a.table) + "/" + ra, Dec(b.table) + "/" + rb);
      SplitUnique(Dec(a.table), ra, Dec(b.table), rb, '/');
      SplitUnique("link=" + Dec(a.link), "dst=" + Destination(a), "link=" + Dec(b.link), "dst=" + Destination(b), '/');
      StripPrefix("link=", Dec(a.link), Dec(b.link));
      StripPrefix("dst=", Destination(a), Destination(b));
      DecRoundTrip(a.table); DecRoundTrip(b.table);
      DecRoundTrip(a.link); DecRoundTrip(b.link);
    }
  }

  function CurrentObject(r: Route): Object {
    Object("route", RouteId(r), "protocol=" + Dec(r.protocol), r.protocol == ROUTE_PROTOCOL,
           if r.protocol == ROUTE_PROTOCOL then EVIDENCE else "", false)
  }

  function DesiredObject(r: Route): Object {
    Object("route", RouteId(r), "protocol=" + Dec(ROUTE_PROTOCOL), true, EVIDENCE, false)
  }

  function RouteKey(r: Route): string { KeyOf("route", RouteId(r)) }

  lemma RouteKeyIdentifies(a: Route, b: Route)
    ensures RouteKey(a) == RouteKey(b) <==> RouteId(a) == RouteId(b)
    ensures RouteId(a) != ""
  {
    PlainKinds("route", "route");
  }

  // ---- which routes are concerned ----

  /** The routes listed on the link (in one table, or in all when `table` is 0) that the caller calls relevant. */
  ghost function Current(routes: set<Route>, link: nat, table: nat, relevant: Route -> bool): set<Route> {
    set r | r in routes && r.link == link && (table == 0 || r.table == table) && relevant(r)
  }

  /** Desired routes whose place is free. */
  ghost function Adds(cur: set<Route>, desired: seq<Route>): set<Route> {
    set d | d in desired && forall c :: c in cur ==> RouteId(c) != RouteId(d)
  }

  /** Owned routes in a place that is not desired. */
  ghost function Dels(cur: set<Route>, desired: seq<Route>): set<Route> {
    set c | c in cur && c.protocol == ROUTE_PROTOCOL && forall d :: d in desired ==> RouteId(d) != RouteId(c)
  }

  ghost predicate Unambiguous(cur: set<Route>) {
    forall a, b :: a in cur && b in cur && RouteId(a) == RouteId(b) ==> a == b
  }

  ghost predicate NoDuplicates(desired: seq<Route>) {
    forall i, j :: 0 <= i < j < |desired| ==> RouteId(desired[i]) != RouteId(desired[j])
  }

  /** A desired place is taken by a route without the reserved protocol. */
  ghost predicate Occupied(cur: set<Route>, desired: seq<Route>) {
    exists c, d :: c in cur && d in desired && RouteId(c) == RouteId(d) && c.protocol != ROUTE_PROTOCOL
  }

  // ---- what can be reached ----

  /** Some additions, and withdrawals only once every addition is in. */
  ghost predicate Reached(s: set<Route>, start: set<Route>, adds: set<Route>, dels: set<Route>) {
    exists a: set<Route>, d: set<Route> :: Partial(s, start, adds, dels, a, d)
  }

  ghost predicate Partial(s: set<Route>, start: set<Route>, adds: set<Route>, dels: set<Route>, a: set<Route>,
                          d: set<Route>)
  {
    a <= adds && d <= dels && (d == {} || a == adds) && s == start + a - d
  }

  /** Safety of every intermediate state: routes both current and desired stay, routes without ownership stay,
      only desired routes appear, and nothing is withdrawn before every desired place is filled. */
  lemma ReachedIsSafe(s: set<Route>, start: set<Route>, link: nat, table: nat, relevant: Route -> bool,
                      desired: seq<Route>)
    requires var cur := Current(start, link, table, relevant); Reached(s, start, Adds(cur, desired), Dels(cur, desired))
    ensures forall r :: r in start && (exists d :: d in desired && RouteId(d) == RouteId(r)) ==> r in s
    ensures forall r :: r in start && r.protocol != ROUTE_PROTOCOL ==> r in s
    ensures forall r :: r in start && r !in Current(start, link, table, relevant) ==> r in s
    ensures forall r :: r in s && r !in start ==> r in desired
    ensures (exists r :: r in start && r !in s) ==>
      forall d :: d in desired ==> exists r :: r in s && RouteId(r) == RouteId(d)
  {
    var cur := Current(start, link, table, relevant);
    var adds, dels := Adds(cur, desired), Dels(cur, desired);
    var a, d :| Partial(s, start, adds, dels, a, d);
    if exists r :: r in start && r !in s {
      forall want | want in desired ensures exists r :: r in s && RouteId(r) == RouteId(want) {
        if want in adds {
          assert want in s;
        } else {
          var c :| c in cur && RouteId(c) == RouteId(want);
          assert c in s;
        }
      }
    }
  }

  ghost predicate OwnsPlace(routes: set<Route>, id: string) {
    exists r :: r in routes && r.protocol == ROUTE_PROTOCOL && RouteId(r) == id
  }

  /** On success the relevant owned places are exactly the desired ones. */
  lemma SuccessMatchesDesired(s: set<Route>, start: set<Route>, link: nat, table: nat, relevant: Route -> bool,
                              desired: seq<Route>, id: string)
    requires var cur := Current(start, link, table, relevant);
      s == start + Adds(cur, desired) - Dels(cur, desired) && !Occupied(cur, desired)
    requires forall d :: d in desired ==>
      d.link == link && (table == 0 || d.table == table) && relevant(d) && d.protocol == ROUTE_PROTOCOL
    ensures OwnsPlace(Current(s, link, table, relevant), id) <==>
      (exists d :: d in desired && RouteId(d) == id)
  {
    var cur, cur' := Current(start, link, table, relevant), Current(s, link, table, relevant);
    var adds, dels := Adds(cur, desired), Dels(cur, desired);
    if r :| r in cur' && r.protocol == ROUTE_PROTOCOL && RouteId(r) == id {
      if r in start {
        assert r in cur && r !in dels;
      } else {
        assert r in desired;
      }
    }
    if d :| d in desired && RouteId(d) == id {
      if d in adds {
        assert d in cur';
      } else {
        var c :| c in cur && RouteId(c) == RouteId(d);
        assert c.protocol == ROUTE_PROTOCOL;
        assert c in cur';
      }
    }
  }

  // ---- building the planner's input ----

  ghost predicate Tracks(m: map<string, Route>, routes: set<Route>) {
    && (forall id :: id in m ==> m[id] in routes && RouteId(m[id]) == id)
    && (forall r :: r in routes ==> RouteId(r) in m && m[RouteId(r)] == r)
  }

  ghost predicate ObjectsOf(objects: seq<Object>, routes: set<Route>) {
    && (forall i :: 0 <= i < |objects| ==> FromRoute(objects[i], routes))
    && (forall r :: r in routes ==> CurrentObject(r) in objects)
    && (forall i, j :: 0 <= i < j < |objects| ==> objects[i].id != objects[j].id)
  }

  ghost predicate FromRoute(o: Object, routes: set<Route>) {
    exists r :: r in routes && o == CurrentObject(r)
  }

  ghost function Members(routes: seq<Route>): set<Route> {
    set r | r in routes
  }

  ghost function Relevant(listed: seq<Route>, relevant: Route -> bool): set<Route> {
    set r | r in listed && relevant(r)
  }

  /** Two listed routes in one place make the reconciliation refuse. */
  method CollectCurrent(listed: seq<Route>, relevant: Route -> bool)
    returns (r: Result<seq<Object>>, routes: map<string, Route>)
    requires forall i, j :: 0 <= i < j < |listed| ==> listed[i] != listed[j]
    ensures r.Ok? <==> Unambiguous(Relevant(listed, relevant))
    ensures r.Ok? ==> Tracks(routes, Relevant(listed, relevant)) && ObjectsOf(r.value, Relevant(listed, relevant))
  {
    var objects: seq<Object> := [];
    routes := map[];
    for i := 0 to |listed|
      invariant Tracks(routes, Relevant(listed[..i], relevant))
      invariant ObjectsOf(objects, Relevant(listed[..i], relevant))
    {
      var route := listed[i];
      var id := RouteId(route);
      assert listed[..i + 1] == listed[..i] + [route];
      if relevant(route) {
        assert Relevant(listed[..i + 1], relevant) == Relevant(listed[..i], relevant) + {route};
        if id in routes {
          assert routes[id] in listed[..i] && routes[id] in Relevant(listed, relevant) &&
            route in Relevant(listed, relevant);
          return Err, routes;
        }
        ObjectsGrow(objects, Relevant(listed[..i], relevant), routes, route);
        objects := objects + [CurrentObject(route)];
        routes := routes[id := route];
      } else {
        assert Relevant(listed[..i + 1], relevant) == Relevant(listed[..i], relevant);
      }
    }
    assert listed[..|listed|] == listed;
    return Ok(objects), routes;
  }

  lemma ObjectsGrow(objects: seq<Object>, routes: set<Route>, m: map<string, Route>, r: Route)
    requires ObjectsOf(objects, routes) && Tracks(m, routes) && RouteId(r) !in m
    ensures ObjectsOf(objects + [CurrentObject(r)], routes + {r})
  {
    var more := objects + [CurrentObject(r)];
    forall i | 0 <= i < |objects| ensures objects[i].id != RouteId(r) && FromRoute(objects[i], routes + {r}) {
      assert FromRoute(objects[i], routes);
      var q :| q in routes && objects[i] == CurrentObject(q);
      assert RouteId(q) in m;
    }
    forall q | q in routes + {r} ensures CurrentObject(q) in more {
      if q == r { assert more[|objects|] == CurrentObject(r); }
    }
    assert FromRoute(CurrentObject(r), routes + {r});
  }

  method CollectDesired(desired: seq<Route>) returns (objects: seq<Object>, routes: map<string, Route>)
    ensures |objects| == |desired| && forall i :: 0 <= i < |desired| ==> objects[i] == DesiredObject(desired[i])
    ensures NoDuplicates(desired) ==> Tracks(routes, Members(desired))
  {
    objects, routes := [], map[];
    for i := 0 to |desired|
      invariant |objects| == i && forall j :: 0 <= j < i ==> objects[j] == DesiredObject(desired[j])
      invariant NoDuplicates(desired) ==> Tracks(routes, Members(desired[..i]))
    {
      if NoDuplicates(desired) { TracksGrow(routes, desired, i); }
      objects := objects + [DesiredObject(desired[i])];
      routes := routes[RouteId(desired[i]) := desired[i]];
    }
    assert desired[..|desired|] == desired;
  }

  lemma TracksGrow(m: map<string, Route>, desired: seq<Route>, i: nat)
    requires i < |desired| && NoDuplicates(desired) && Tracks(m, Members(desired[..i]))
    ensures Tracks(m[RouteId(desired[i]) := desired[i]], Members(desired[..i + 1]))
  {
    var front := desired[..i];
    assert desired[..i + 1] == front + [desired[i]];
    assert Members(desired[..i + 1]) == Members(front) + {desired[i]};
    assert forall j :: 0 <= j < i ==> front[j] == desired[j];
    TracksMore(m, Members(front), desired[i]);
  }

  lemma TracksMore(m: map<string, Route>, routes: set<Route>, r: Route)
    requires Tracks(m, routes) && RouteId(r) !in m
    ensures Tracks(m[RouteId(r) := r], routes + {r})
  {}

  // ---- reading the plan ----

  lemma CurrentIndexable(objects: seq<Object>, routes: set<Route>)
    requires ObjectsOf(objects, routes)
    ensures Indexable(objects, false)
  {
    forall i | 0 <= i < |objects| ensures ObjectOk(objects[i], false) {
      assert FromRoute(objects[i], routes);
      var r :| r in routes && objects[i] == CurrentObject(r);
      RouteKeyIdentifies(r, r);
    }
    forall i, j | 0 <= i < j < |objects| ensures Key(objects[i]) != Key(objects[j]) {
      assert FromRoute(objects[i], routes) && FromRoute(objects[j], routes);
      var a :| a in routes && objects[i] == CurrentObject(a);
      var b :| b in routes && objects[j] == CurrentObject(b);
      RouteKeyIdentifies(a, b);
    }
  }

  lemma DesiredIndexable(objects: seq<Object>, desired: seq<Route>)
    requires |objects| == |desired| && forall i :: 0 <= i < |desired| ==> objects[i] == DesiredObject(desired[i])
    ensures Indexable(objects, true) <==> NoDuplicates(desired)
  {
    forall i, j | 0 <= i < j < |objects|
      ensures Key(objects[i]) == Key(objects[j]) <==> RouteId(desired[i]) == RouteId(desired[j])
    {
      RouteKeyIdentifies(desired[i], desired[j]);
    }
    forall i | 0 <= i < |objects| ensures ObjectOk(objects[i], true) { RouteKeyIdentifies(desired[i], desired[i]); }
  }

  /** The planner's two maps hold exactly the current and the desired routes. */
  ghost predicate Mirrors(have: Objects, want: Objects, cur: set<Route>, desired: set<Route>) {
    && (forall c :: c in cur ==> RouteKey(c) in have && have[RouteKey(c)] == CurrentObject(c))
    && (forall k :: k in have ==> exists c :: c in cur && k == RouteKey(c))
    && (forall d :: d in desired ==> RouteKey(d) in want && want[RouteKey(d)] == DesiredObject(d))
    && (forall k :: k in want ==> exists d :: d in desired && k == RouteKey(d))
  }

  lemma IndexMirrors(have: Objects, want: Objects, curObjects: seq<Object>, cur: set<Route>, dstObjects: seq<Object>,
                     desired: seq<Route>)
    requires Indexes(have, curObjects) && ObjectsOf(curObjects, cur)
    requires Indexes(want, dstObjects) && |dstObjects| == |desired|
    requires forall i :: 0 <= i < |desired| ==> dstObjects[i] == DesiredObject(desired[i])
    ensures Mirrors(have, want, cur, Members(desired))
  {
    forall c | c in cur ensures RouteKey(c) in have && have[RouteKey(c)] == CurrentObject(c) {
      assert CurrentObject(c) in curObjects && Key(CurrentObject(c)) == RouteKey(c);
    }
    forall k | k in have ensures exists c :: c in cur && k == RouteKey(c) {
      var i :| 0 <= i < |curObjects| && curObjects[i] == have[k];
      assert FromRoute(curObjects[i], cur);
      var c :| c in cur && curObjects[i] == CurrentObject(c);
      assert k == Key(have[k]) == RouteKey(c);
    }
    forall d | d in desired ensures RouteKey(d) in want && want[RouteKey(d)] == DesiredObject(d) {
      var i :| 0 <= i < |desired| && desired[i] == d;
      assert dstObjects[i] in dstObjects && Key(DesiredObject(d)) == RouteKey(d);
    }
    forall k | k in want ensures exists d :: d in Members(desired) && k == RouteKey(d) {
      var i :| 0 <= i < |dstObjects| && dstObjects[i] == want[k];
      assert k == RouteKey(desired[i]) && desired[i] in desired;
    }
  }

  lemma FreePlaceIsAdd(have: Objects, want: Objects, cur: set<Route>, desired: seq<Route>, k: string) returns (d: Route)
    requires Mirrors(have, want, cur, Members(desired)) && k !in have && k in want
    ensures d in Adds(cur, desired) && want[k] == DesiredObject(d)
  {
    d :| d in Members(desired) && k == RouteKey(d);
    forall c | c in cur ensures RouteId(c) != RouteId(d) { RouteKeyIdentifies(c, d); }
  }

  lemma SurplusPlaceIsDel(have: Objects, want: Objects, cur: set<Route>, desired: seq<Route>, k: string)
    returns (c: Route)
    requires Mirrors(have, want, cur, Members(desired)) && k in have && k !in want && have[k].owned
    ensures c in Dels(cur, desired) && have[k] == CurrentObject(c)
  {
    c :| c in cur && k == RouteKey(c);
    forall d | d in desired ensures RouteId(d) != RouteId(c) {
      assert d in Members(desired);
      RouteKeyIdentifies(c, d);
    }
  }

  lemma SharedPlaceIsQuiet(have: Objects, want: Objects, cur: set<Route>, desired: seq<Route>, k: string)
    requires Mirrors(have, want, cur, Members(desired)) && k in have && k in want
    ensures Ops(have, want, k) == []
  {
    var c :| c in cur && k == RouteKey(c);
    var d :| d in Members(desired) && k == RouteKey(d);
    assert have[k] == CurrentObject(c) && want[k] == DesiredObject(d);
  }

  /** Every planned operation adds a missing desired route or withdraws an owned surplus one; no update
      can arise. */
  lemma OpMeaning(p: Plan, have: Objects, want: Objects, cur: set<Route>, desired: seq<Route>, op: Operation)
    requires IsPlan(p, have, want) && Mirrors(have, want, cur, Members(desired)) && op in p.operations
    ensures op.action != Update
    ensures op.action == Add ==> exists d :: d in Adds(cur, desired) && RouteId(d) == op.id
    ensures op.action == Delete ==> exists c :: c in Dels(cur, desired) && RouteId(c) == op.id
  {
    PlanOps(p, have, want, op);
    var k :| (k in have || k in want) && op in Ops(have, want, k);
    if k !in have {
      var d := FreePlaceIsAdd(have, want, cur, desired, k);
    } else if k !in want {
      var c := SurplusPlaceIsDel(have, want, cur, desired, k);
    } else {
      SharedPlaceIsQuiet(have, want, cur, desired, k);
    }
  }

  lemma FreePlaceOp(have: Objects, want: Objects, cur: set<Route>, desired: seq<Route>, d: Route)
    returns (op: Operation)
    requires Mirrors(have, want, cur, Members(desired)) && d in Adds(cur, desired)
    ensures op.action == Add && op.id == RouteId(d)
    ensures RouteKey(d) in want && op in Ops(have, want, RouteKey(d))
  {
    var k := RouteKey(d);
    if k in have {
      var c :| c in cur && k == RouteKey(c);
      RouteKeyIdentifies(c, d);
      assert false;
    }
    op := Ops(have, want, k)[0];
  }

  lemma SurplusPlaceOp(have: Objects, want: Objects, cur: set<Route>, desired: seq<Route>, c: Route)
    returns (op: Operation)
    requires Mirrors(have, want, cur, Members(desired)) && c in Dels(cur, desired)
    ensures op.action == Delete && op.id == RouteId(c)
    ensures RouteKey(c) in have && op in Ops(have, want, RouteKey(c))
  {
    var k := RouteKey(c);
    if k in want {
      var d :| d in desired && k == RouteKey(d);
      RouteKeyIdentifies(c, d);
      assert false;
    }
    op := Ops(have, want, k)[0];
  }

  lemma AddIsPlanned(p: Plan, have: Objects, want: Objects, cur: set<Route>, desired: seq<Route>, d: Route)
    requires IsPlan(p, have, want) && Mirrors(have, want, cur, Members(desired)) && d in Adds(cur, desired)
    ensures exists op :: op in p.operations && op.action == Add && op.id == RouteId(d)
  {
    var op := FreePlaceOp(have, want, cur, desired, d);
    PlanOps(p, have, want, op);
  }

  lemma DelIsPlanned(p: Plan, have: Objects, want: Objects, cur: set<Route>, desired: seq<Route>, c: Route)
    requires IsPlan(p, have, want) && Mirrors(have, want, cur, Members(desired)) && c in Dels(cur, desired)
    ensures exists op :: op in p.operations && op.action == Delete && op.id == RouteId(c)
  {
    var op := SurplusPlaceOp(have, want, cur, desired, c);
    PlanOps(p, have, want, op);
  }

  lemma CollisionIsOccupied(have: Objects, want: Objects, cur: set<Route>, desired: seq<Route>, k: string)
    requires Mirrors(have, want, cur, Members(desired)) && Collides(have, want, k)
    ensures Occupied(cur, desired)
  {
    var c :| c in cur && k == RouteKey(c);
    var d :| d in Members(desired) && k == RouteKey(d);
    RouteKeyIdentifies(c, d);
    assert have[k] == CurrentObject(c);
    assert d in desired;
  }

  lemma OccupiedCollides(have: Objects, want: Objects, cur: set<Route>, desired: seq<Route>, c: Route, d: Route)
    requires Mirrors(have, want, cur, Members(desired))
    requires c in cur && d in desired && RouteId(c) == RouteId(d) && c.protocol != ROUTE_PROTOCOL
    ensures Collides(have, want, RouteKey(c))
  {
    RouteKeyIdentifies(c, d);
    assert d in Members(desired);
    assert have[RouteKey(c)] == CurrentObject(c) && want[RouteKey(d)] == DesiredObject(d);
  }

  lemma DriftIsOccupied(p: Plan, have: Objects, want: Objects, cur: set<Route>, desired: seq<Route>)
    requires IsPlan(p, have, want) && Mirrors(have, want, cur, Members(desired))
    ensures (exists i :: 0 <= i < |p.drift| && p.drift[i].blocking) <==> Occupied(cur, desired)
  {
    DriftMeansCollision(p, have, want);
    if k :| Collides(have, want, k) { CollisionIsOccupied(have, want, cur, desired, k); }
    if c, d :| c in cur && d in desired && RouteId(c) == RouteId(d) && c.protocol != ROUTE_PROTOCOL {
      OccupiedCollides(have, want, cur, desired, c, d);
    }
  }

  // ---- execution ----

  /** The kernel's routes; `history` records every state since it was last cleared. */
  class RouteKernel {
    var routes: set<Route>
    ghost var history: seq<set<Route>>

    constructor (routes: set<Route>)
      ensures this.routes == routes && history == []
    {
      this.routes, history := routes, [];
    }

    method RouteAdd(r: Route, fails: bool) returns (ok: bool)
      modifies this
      ensures ok == !fails && routes == (if ok then old(routes) + {r} else old(routes))
      ensures history == old(history) + [routes]
    {
      ok := !fails;
      if ok { routes := routes + {r}; }
      history := history + [routes];
    }

    /** A route that is already missing counts as deleted. */
    method RouteDel(r: Route, fails: bool) returns (ok: bool)
      modifies this
      ensures ok == !fails && routes == (if ok then old(routes) - {r} else old(routes))
      ensures history == old(history) + [routes]
    {
      ok := !fails;
      if ok { routes := routes - {r}; }
      history := history + [routes];
    }
  }

  ghost predicate AllReached(history: seq<set<Route>>, start: set<Route>, adds: set<Route>, dels: set<Route>) {
    forall i :: 0 <= i < |history| ==> Reached(history[i], start, adds, dels)
  }

  /** `id` names the route to add or withdraw, and every such route is named by some operation. */
  ghost predicate Names(ops: seq<Operation>, action: Action, m: map<string, Route>, targets: set<Route>) {
    && (forall i :: 0 <= i < |ops| && ops[i].action == action ==> ops[i].id in m && m[ops[i].id] in targets)
    && (forall r :: r in targets ==> NamedBy(ops, action, m, r, |ops|))
  }

  ghost predicate NamedBy(ops: seq<Operation>, action: Action, m: map<string, Route>, r: Route, n: nat)
    requires n <= |ops|
  {
    exists i :: 0 <= i < n && ops[i].action == action && ops[i].id in m && m[ops[i].id] == r
  }

  method AddPhase(kernel: RouteKernel, ops: seq<Operation>, desired: map<string, Route>, fails: nat -> bool,
                  ghost adds: set<Route>, ghost dels: set<Route>)
    returns (ok: bool)
    requires Names(ops, Add, desired, adds) && kernel.history == []
    modifies kernel
    ensures AllReached(kernel.history, old(kernel.routes), adds, dels)
    ensures ok ==> kernel.routes == old(kernel.routes) + adds
    ensures !ok ==> Reached(kernel.routes, old(kernel.routes), adds, dels)
    ensures (forall i: nat :: !fails(i)) ==> ok
  {
    ghost var start := kernel.routes;
    ghost var a: set<Route> := {};
    for i := 0 to |ops|
      invariant a <= adds && kernel.routes == start + a
      invariant forall r :: r in adds && NamedBy(ops, Add, desired, r, i) ==> r in a
      invariant AllReached(kernel.history, start, adds, dels)
    {
      if ops[i].action == Add {
        var r := desired[ops[i].id];
        ok := kernel.RouteAdd(r, fails(i));
        if ok { a := a + {r}; }
        assert Partial(kernel.routes, start, adds, dels, a, {});
        if !ok { return; }
      }
    }
    assert a == adds by {
      forall r | r in adds ensures r in a { assert NamedBy(ops, Add, desired, r, |ops|); }
    }
    ok := true;
  }

  method DeletePhase(kernel: RouteKernel, ops: seq<Operation>, current: map<string, Route>, fails: nat -> bool,
                     ghost start: set<Route>, ghost adds: set<Route>, ghost dels: set<Route>)
    returns (ok: bool)
    requires Names(ops, Delete, current, dels) && kernel.routes == start + adds
    requires AllReached(kernel.history, start, adds, dels)
    modifies kernel
    ensures AllReached(kernel.history, start, adds, dels)
    ensures ok ==> kernel.routes == start + adds - dels
    ensures !ok ==> Reached(kernel.routes, start, adds, dels)
    ensures (forall i: nat :: !fails(i)) ==> ok
  {
    ghost var d: set<Route> := {};
    for i := 0 to |ops|
      invariant d <= dels && kernel.routes == start + adds - d
      invariant forall r :: r in dels && NamedBy(ops, Delete, current, r, i) ==> r in d
      invariant AllReached(kernel.history, start, adds, dels)
    {
      if ops[i].action == Delete {
        var r := current[ops[i].id];
        ok := kernel.RouteDel(r, fails(i));
        if ok { d := d + {r}; }
        assert Partial(kernel.routes, start, adds, dels, adds, d);
        if !ok { return; }
      }
    }
    assert d == dels by {
      forall r | r in dels ensures r in d { assert NamedBy(ops, Delete, current, r, |ops|); }
    }
    ok := true;
  }

  lemma IdNames(id: string, part: set<Route>, m: map<string, Route>, routes: set<Route>)
    requires Tracks(m, routes) && part <= routes && exists r :: r in part && RouteId(r) == id
    ensures id in m && m[id] in part
  {
    var r :| r in part && RouteId(r) == id;
    assert r in routes;
  }

  lemma PlannedNames(ops: seq<Operation>, action: Action, m: map<string, Route>, routes: set<Route>, r: Route)
    requires Tracks(m, routes) && r in routes
    requires exists op :: op in ops && op.action == action && op.id == RouteId(r)
    ensures NamedBy(ops, action, m, r, |ops|)
  {
    var op :| op in ops && op.action == action && op.id == RouteId(r);
    var i :| 0 <= i < |ops| && ops[i] == op;
  }

  lemma AddsNamed(p: Plan, have: Objects, want: Objects, cur: set<Route>, desired: seq<Route>,
                  routes: map<string, Route>)
    requires IsPlan(p, have, want) && Mirrors(have, want, cur, Members(desired)) && Tracks(routes, Members(desired))
    ensures Names(p.operations, Add, routes, Adds(cur, desired))
  {
    var ops, adds := p.operations, Adds(cur, desired);
    forall i | 0 <= i < |ops| && ops[i].action == Add ensures ops[i].id in routes && routes[ops[i].id] in adds {
      OpMeaning(p, have, want, cur, desired, ops[i]);
      IdNames(ops[i].id, adds, routes, Members(desired));
    }
    forall r | r in adds ensures NamedBy(ops, Add, routes, r, |ops|) {
      AddIsPlanned(p, have, want, cur, desired, r);
      PlannedNames(ops, Add, routes, Members(desired), r);
    }
  }

  lemma DelsNamed(p: Plan, have: Objects, want: Objects, cur: set<Route>, desired: seq<Route>,
                  routes: map<string, Route>)
    requires IsPlan(p, have, want) && Mirrors(have, want, cur, Members(desired)) && Tracks(routes, cur)
    ensures Names(p.operations, Delete, routes, Dels(cur, desired))
  {
    var ops, dels := p.operations, Dels(cur, desired);
    forall i | 0 <= i < |ops| && ops[i].action == Delete ensures ops[i].id in routes && routes[ops[i].id] in dels {
      OpMeaning(p, have, want, cur, desired, ops[i]);
      IdNames(ops[i].id, dels, routes, cur);
    }
    forall r | r in dels ensures NamedBy(ops, Delete, routes, r, |ops|) {
      DelIsPlanned(p, have, want, cur, desired, r);
      PlannedNames(ops, Delete, routes, cur, r);
    }
  }

  ghost predicate Lists(listed: seq<Route>, routes: set<Route>, link: nat, table: nat) {
    && (forall i, j :: 0 <= i < j < |listed| ==> listed[i] != listed[j])
    && (forall r :: r in listed <==> r in routes && r.link == link && (table == 0 || r.table == table))
  }

  ghost predicate Accepts(listing: Option<seq<Route>>, cur: set<Route>, desired: seq<Route>) {
    listing.Some? && Unambiguous(cur) && NoDuplicates(desired) && !Occupied(cur, desired)
  }

  /** One reconciliation. `listing` is the kernel's answer to the route query, `fails` says which operations
      the kernel refuses. It refuses before any change when the current places are ambiguous, a desired
      place is duplicated, or a desired place is held by a foreign route; otherwise every state on the way,
      including the one an error leaves, is a safe partial execution. */
  method ReconcileRouteSet(kernel: RouteKernel, link: nat, table: nat, listing: Option<seq<Route>>,
                           desired: seq<Route>, relevant: Route -> bool, addFails: nat -> bool,
                           deleteFails: nat -> bool)
    returns (ok: bool)
    requires listing.Some? ==> Lists(listing.value, kernel.routes, link, table)
    requires kernel.history == []
    modifies kernel
    ensures var start, cur := old(kernel.routes), Current(old(kernel.routes), link, table, relevant);
      && AllReached(kernel.history, start, Adds(cur, desired), Dels(cur, desired))
      && Reached(kernel.routes, start, Adds(cur, desired), Dels(cur, desired))
      && (!Accepts(listing, cur, desired) ==> !ok && kernel.history == [] && kernel.routes == start)
      && (Accepts(listing, cur, desired) && (forall i: nat :: !addFails(i) && !deleteFails(i)) ==> ok)
      && (ok ==> kernel.routes == start + Adds(cur, desired) - Dels(cur, desired))
  {
    ghost var start := kernel.routes;
    ghost var cur := Current(start, link, table, relevant);
    assert Partial(start, start, Adds(cur, desired), Dels(cur, desired), {}, {});
    if listing.None? { return false; }
    assert Relevant(listing.value, relevant) == cur;
    var collected, currentRoutes := CollectCurrent(listing.value, relevant);
    if collected.Err? { return false; }
    var desiredObjects, desiredRoutes := CollectDesired(desired);
    CurrentIndexable(collected.value, cur);
    DesiredIndexable(desiredObjects, desired);
    var plan, have, want := PlanDiff(collected.value, desiredObjects);
    if plan.Err? { return false; }
    IndexMirrors(have, want, collected.value, cur, desiredObjects, desired);
    DriftIsOccupied(plan.value, have, want, cur, desired);
    var blocked := HasBlockingDrift(plan.value);
    if blocked { return false; }
    AddsNamed(plan.value, have, want, cur, desired, desiredRoutes);
    DelsNamed(plan.value, have, want, cur, desired, currentRoutes);
    ghost var adds, dels := Adds(cur, desired), Dels(cur, desired);
    ok := AddPhase(kernel, plan.value.operations, desiredRoutes, addFails, adds, dels);
    if !ok { return; }
    ok := DeletePhase(kernel, plan.value.operations, currentRoutes, deleteFails, start, adds, dels);
    if ok { assert Partial(kernel.routes, start, adds, dels, adds, dels); }
  }
}
