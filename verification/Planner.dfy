/** The ownership-safe planner: current and desired kernel objects in, a deterministic mutation plan out. */
module Planner {
  import opened Results
  import opened Ordering
  import opened Text

  datatype Object = Object(kind: string, id: string, value: string, owned: bool, evidence: string, allowAdopt: bool)

  function Key(o: Object): string { KeyOf(o.kind, o.id) }

  function KeyOf(kind: string, id: string): string { kind + ":" + id }

  datatype Action = Add | Update | Delete
  datatype Operation = Operation(action: Action, kind: string, id: string, before: string, after: string,
                                 evidence: string)
  datatype Drift = Drift(kind: string, id: string, blocking: bool)
  datatype Plan = Plan(operations: seq<Operation>, drift: seq<Drift>)

  // ---- keys ----

  /** A key of one of the two kinds tells its object apart from every object of the other kind. */
  ghost predicate Identified(k1: string, k2: string) {
    forall i1, i2 :: KeyOf(k1, i1) == KeyOf(k2, i2) ==> k1 == k2 && i1 == i2
  }

  /** One kind is the other one cut off at a colon. */
  predicate CutAtColon(k1: string, k2: string) { k1 + ":" <= k2 || k2 + ":" <= k1 }

  /** Kinds of objects with one key: the shorter is the longer one, or is it cut off at a colon. */
  lemma SameKey(k1: string, i1: string, k2: string, i2: string)
    requires KeyOf(k1, i1) == KeyOf(k2, i2) && |k1| <= |k2|
    ensures |k1| == |k2| ==> k1 == k2 && i1 == i2
    ensures |k1| < |k2| ==> k1 + ":" <= k2
  {
    var x := KeyOf(k1, i1);
    assert k1 == x[..|k1|] && k2 == x[..|k2|] && x[|k1|] == ':';
    assert i1 == x[|k1| + 1..] && i2 == x[|k2| + 1..];
    if |k1| < |k2| {
      assert k2[..|k1| + 1] == x[..|k1| + 1] == k1 + ":";
    }
  }

  /** Two objects the planner accepts, of different kinds and with one key. */
  lemma CutKinds(k1: string, k2: string) returns (i1: string, i2: string)
    requires k1 + ":" <= k2
    ensures i1 != "" && i2 != "" && k1 != k2 && KeyOf(k1, i1) == KeyOf(k2, i2)
  {
    var x := k2[|k1| + 1..];
    assert k2 == k1 + ":" + x;
    i1, i2 := x + ":" + "c", "c";
    assert KeyOf(k2, i2) == k1 + ":" + x + ":" + "c" == KeyOf(k1, i1);
  }

  /** Keys identify objects of two kinds exactly when neither kind is the other one cut off at a colon. */
  lemma KeyIdentifies(k1: string, k2: string)
    ensures Identified(k1, k2) <==> !CutAtColon(k1, k2)
  {
    if k1 + ":" <= k2 {
      var i1, i2 := CutKinds(k1, k2);
      assert !Identified(k1, k2);
    } else if k2 + ":" <= k1 {
      var i2, i1 := CutKinds(k2, k1);
      assert KeyOf(k1, i1) == KeyOf(k2, i2);
      assert !Identified(k1, k2);
    } else {
      forall i1, i2 | KeyOf(k1, i1) == KeyOf(k2, i2) ensures k1 == k2 && i1 == i2 {
        if |k1| <= |k2| { SameKey(k1, i1, k2, i2); } else { SameKey(k2, i2, k1, i1); }
      }
    }
  }

  lemma CutHasColon(k1: string, k2: string)
    requires k1 + ":" <= k2
    ensures !Free(k2, ':')
  {
    assert k2[|k1|] == (k1 + ":")[|k1|];
  }

  /** Kinds without a colon, as all four kinds are, are never cut off at one. */
  lemma PlainKinds(k1: string, k2: string)
    requires Free(k1, ':') && Free(k2, ':')
    ensures Identified(k1, k2)
  {
    if k1 + ":" <= k2 {
      CutHasColon(k1, k2);
      assert false;
    }
    if k2 + ":" <= k1 {
      CutHasColon(k2, k1);
      assert false;
    }
    KeyIdentifies(k1, k2);
  }

  /** Kind "a:b" cut off at its colon is "a", and these two objects share a key. */
  lemma KeyCollides()
    ensures KeyOf("a:b", "c") == KeyOf("a", "b:c")
  {
    assert "a:b" + ":" + "c" == "a:b:c" == "a" + ":" + "b:c";
  }

  // ---- indexing ----

  ghost predicate ObjectOk(o: Object, desired: bool) {
    o.kind != "" && o.id != "" && (desired ==> o.evidence != "")
  }

  ghost predicate Indexable(objects: seq<Object>, desired: bool) {
    && (forall i :: 0 <= i < |objects| ==> ObjectOk(objects[i], desired))
    && (forall i, j :: 0 <= i < j < |objects| ==> Key(objects[i]) != Key(objects[j]))
  }

  /** `m` maps exactly the keys of `objects` to their objects. */
  ghost predicate Indexes(m: map<string, Object>, objects: seq<Object>) {
    && (forall k :: k in m ==> Key(m[k]) == k && m[k] in objects)
    && (forall o :: o in objects ==> Key(o) in m && m[Key(o)] == o)
  }

  lemma IndexGrows(m: map<string, Object>, objects: seq<Object>, desired: bool, o: Object)
    requires Indexable(objects, desired) && Indexes(m, objects) && ObjectOk(o, desired) && Key(o) !in m
    ensures Indexable(objects + [o], desired) && Indexes(m[Key(o) := o], objects + [o])
  {
    forall i | 0 <= i < |objects| ensures Key(objects[i]) != Key(o) { assert objects[i] in objects; }
  }

  lemma IndexClash(m: map<string, Object>, objects: seq<Object>, desired: bool, i: nat)
    requires i < |objects| && Indexes(m, objects[..i]) && Key(objects[i]) in m
    ensures !Indexable(objects, desired)
  {
    assert m[Key(objects[i])] in objects[..i];
    var j :| 0 <= j < i && objects[..i][j] == m[Key(objects[i])];
    assert Key(objects[j]) == Key(objects[i]);
  }

  method IndexObjects(objects: seq<Object>, desired: bool) returns (r: Result<map<string, Object>>)
    ensures r.Ok? <==> Indexable(objects, desired)
    ensures r.Ok? ==> Indexes(r.value, objects)
  {
    var indexed: map<string, Object> := map[];
    for i := 0 to |objects|
      invariant Indexable(objects[..i], desired) && Indexes(indexed, objects[..i])
    {
      var o := objects[i];
      if o.kind == "" || o.id == "" { return Err; }
      if desired && o.evidence == "" { return Err; }
      if Key(o) in indexed {
        IndexClash(indexed, objects, desired, i);
        return Err;
      }
      IndexGrows(indexed, objects[..i], desired, o);
      indexed := indexed[Key(o) := o];
      assert objects[..i + 1] == objects[..i] + [o];
    }
    assert objects[..|objects|] == objects;
    return Ok(indexed);
  }

  lemma IndexesUnique(m: map<string, Object>, n: map<string, Object>, objects: seq<Object>, objects': seq<Object>)
    requires Indexes(m, objects) && Indexes(n, objects') && multiset(objects) == multiset(objects')
    ensures m == n
  {
    SameMembers(objects, objects');
    assert forall k :: k in m ==> k in n && n[k] == m[k];
    assert forall k :: k in n ==> k in m;
  }

  // ---- planning ----

  type Objects = map<string, Object>

  /** The operations (none or one) for one key. */
  function Ops(have: Objects, want: Objects, k: string): (ops: seq<Operation>)
    requires k in have || k in want
    ensures |ops| <= 1
  {
    if k !in have then
      [Operation(Add, want[k].kind, want[k].id, "", want[k].value, want[k].evidence)]
    else if k !in want then
      if have[k].owned then [Operation(Delete, have[k].kind, have[k].id, have[k].value, "", have[k].evidence)] else []
    else if !have[k].owned then
      if want[k].allowAdopt && have[k].value == want[k].value then
        [Operation(Update, want[k].kind, want[k].id, have[k].value, want[k].value, want[k].evidence)]
      else []
    else if have[k].value != want[k].value then
      [Operation(Update, want[k].kind, want[k].id, have[k].value, want[k].value, have[k].evidence)]
    else []
  }

  predicate Collides(have: Objects, want: Objects, k: string) {
    k in have && k in want && !have[k].owned && !(want[k].allowAdopt && have[k].value == want[k].value)
  }

  function Drifts(have: Objects, want: Objects, k: string): seq<Drift>
    requires k in have || k in want
  {
    if Collides(have, want, k) then [Drift(want[k].kind, want[k].id, true)] else []
  }

  ghost predicate Known(keys: seq<string>, have: Objects, want: Objects) {
    forall i :: 0 <= i < |keys| ==> keys[i] in have || keys[i] in want
  }

  ghost function Build(keys: seq<string>, have: Objects, want: Objects): Plan
    requires Known(keys, have, want)
  {
    if keys == [] then Plan([], [])
    else
      var front, k := Build(keys[..|keys| - 1], have, want), keys[|keys| - 1];
      Plan(front.operations + Ops(have, want, k), front.drift + Drifts(have, want, k))
  }

  /** `keys` lists the keys of both sides in text order. */
  ghost predicate AllKeys(keys: seq<string>, have: Objects, want: Objects) {
    Ascending(keys, TextLess) && forall k :: k in keys <==> k in have || k in want
  }

  ghost predicate IsPlan(p: Plan, have: Objects, want: Objects) {
    exists keys :: AllKeys(keys, have, want) && Known(keys, have, want) && p == Build(keys, have, want)
  }

  method CollectKeys(have: Objects, want: Objects) returns (keys: seq<string>)
    ensures Distinct(keys) && forall k :: k in keys <==> k in have || k in want
  {
    keys := [];
    var todo := have.Keys;
    while todo != {}
      invariant todo <= have.Keys && Distinct(keys)
      invariant forall k :: k in keys <==> k in have && k !in todo
      decreases todo
    {
      var k :| k in todo;
      keys, todo := keys + [k], todo - {k};
    }
    todo := want.Keys;
    while todo != {}
      invariant todo <= want.Keys && Distinct(keys)
      invariant forall k :: k in keys <==> k in have || (k in want && k !in todo)
      decreases todo
    {
      var k :| k in todo;
      if k !in have { keys := keys + [k]; }
      todo := todo - {k};
    }
  }

  method SortedKeys(have: Objects, want: Objects) returns (keys: seq<string>)
    ensures AllKeys(keys, have, want) && Known(keys, have, want)
  {
    var unsorted := CollectKeys(have, want);
    keys := SortBy(unsorted, TextLess);
    TextLessTotal();
    SortByAscending(unsorted, TextLess);
    SameMembers(keys, unsorted);
    forall i | 0 <= i < |keys| ensures keys[i] in have || keys[i] in want { assert keys[i] in keys; }
  }

  /** The planner's case analysis for one key, appended to the plan so far. */
  method PlanKey(have: Objects, want: Objects, k: string, p: Plan) returns (q: Plan)
    requires k in have || k in want
    ensures q == Plan(p.operations + Ops(have, want, k), p.drift + Drifts(have, want, k))
  {
    var ops, drift := p.operations, p.drift;
    if k !in have {
      var d := want[k];
      ops := ops + [Operation(Add, d.kind, d.id, "", d.value, d.evidence)];
    } else if k !in want {
      var c := have[k];
      if c.owned { ops := ops + [Operation(Delete, c.kind, c.id, c.value, "", c.evidence)]; }
    } else {
      var c, d := have[k], want[k];
      if !c.owned {
        if d.allowAdopt && c.value == d.value {
          ops := ops + [Operation(Update, d.kind, d.id, c.value, d.value, d.evidence)];
        } else {
          drift := drift + [Drift(d.kind, d.id, true)];
        }
      } else if c.value != d.value {
        ops := ops + [Operation(Update, d.kind, d.id, c.value, d.value, c.evidence)];
      }
    }
    return Plan(ops, drift);
  }

  method PlanKeys(keys: seq<string>, have: Objects, want: Objects) returns (p: Plan)
    requires Known(keys, have, want)
    ensures p == Build(keys, have, want)
  {
    p := Plan([], []);
    for i := 0 to |keys|
      invariant p == Build(keys[..i], have, want)
    {
      assert keys[..i + 1][..i] == keys[..i];
      p := PlanKey(have, want, keys[i], p);
    }
    assert keys[..|keys|] == keys;
  }

  method PlanDiff(current: seq<Object>, desired: seq<Object>)
    returns (r: Result<Plan>, ghost have: Objects, ghost want: Objects)
    ensures r.Ok? <==> Indexable(current, false) && Indexable(desired, true)
    ensures r.Ok? ==> Indexes(have, current) && Indexes(want, desired) && IsPlan(r.value, have, want)
  {
    have, want := map[], map[];
    var cur := IndexObjects(current, false);
    if cur.Err? { return Err, have, want; }
    var dst := IndexObjects(desired, true);
    if dst.Err? { return Err, have, want; }
    have, want := cur.value, dst.value;
    var keys := SortedKeys(cur.value, dst.value);
    var p := PlanKeys(keys, cur.value, dst.value);
    return Ok(p), have, want;
  }

  method HasBlockingDrift(p: Plan) returns (b: bool)
    ensures b <==> exists i :: 0 <= i < |p.drift| && p.drift[i].blocking
  {
    for i := 0 to |p.drift|
      invariant forall j :: 0 <= j < i ==> !p.drift[j].blocking
    {
      if p.drift[i].blocking { return true; }
    }
    return false;
  }

  // ---- determinism ----

  lemma PlanUnique(p: Plan, q: Plan, have: Objects, want: Objects)
    requires IsPlan(p, have, want) && IsPlan(q, have, want)
    ensures p == q
  {
    var ks :| AllKeys(ks, have, want) && Known(ks, have, want) && p == Build(ks, have, want);
    var qs :| AllKeys(qs, have, want) && Known(qs, have, want) && q == Build(qs, have, want);
    TextLessTotal();
    AscendingUnique(ks, qs, TextLess);
  }

  /** The plan does not depend on the order of either input. */
  lemma PlanIgnoresOrder(current: seq<Object>, desired: seq<Object>, current': seq<Object>, desired': seq<Object>,
                         have: Objects, want: Objects, have': Objects, want': Objects, p: Plan, p': Plan)
    requires multiset(current) == multiset(current') && multiset(desired) == multiset(desired')
    requires Indexes(have, current) && Indexes(want, desired) && IsPlan(p, have, want)
    requires Indexes(have', current') && Indexes(want', desired') && IsPlan(p', have', want')
    ensures p == p'
  {
    IndexesUnique(have, have', current, current');
    IndexesUnique(want, want', desired, desired');
    PlanUnique(p, p', have, want);
  }

  // ---- carrying a plan out ----

  /** What an operation does to the objects present: adds and updates leave an owned object with the new value. */
  function ApplyOp(state: Objects, op: Operation): Objects {
    var k := KeyOf(op.kind, op.id);
    if op.action == Delete then state - {k}
    else state[k := Object(op.kind, op.id, op.after, true, op.evidence, false)]
  }

  function ApplyAll(state: Objects, ops: seq<Operation>): Objects {
    if ops == [] then state else ApplyOp(ApplyAll(state, ops[..|ops| - 1]), ops[|ops| - 1])
  }

  ghost predicate Keyed(m: Objects) { forall k :: k in m ==> Key(m[k]) == k }

  lemma OpKey(have: Objects, want: Objects, k: string)
    requires Keyed(have) && Keyed(want) && (k in have || k in want)
    ensures forall i :: 0 <= i < |Ops(have, want, k)| ==>
      KeyOf(Ops(have, want, k)[i].kind, Ops(have, want, k)[i].id) == k
  {}

  /** What becomes of key `k`. */
  ghost function After(have: Objects, want: Objects, k: string): Objects
    requires k in have || k in want
  {
    ApplyAll(have, Ops(have, want, k))
  }

  ghost predicate SameAt(a: Objects, b: Objects, k: string) {
    (k in a <==> k in b) && (k in a ==> a[k] == b[k])
  }

  lemma ApplyOpAt(s: Objects, t: Objects, op: Operation, k: string)
    requires SameAt(s, t, k)
    ensures SameAt(ApplyOp(s, op), ApplyOp(t, op), k)
    ensures KeyOf(op.kind, op.id) != k ==> SameAt(ApplyOp(s, op), s, k)
  {}

  lemma ApplyOneMore(state: Objects, ops: seq<Operation>, op: Operation)
    ensures ApplyAll(state, ops + [op]) == ApplyOp(ApplyAll(state, ops), op)
  {
    assert (ops + [op])[..|ops|] == ops;
  }

  lemma AfterOps(have: Objects, want: Objects, k: string)
    requires k in have || k in want
    ensures After(have, want, k) == if Ops(have, want, k) == [] then have else ApplyOp(have, Ops(have, want, k)[0])
  {
    var ops := Ops(have, want, k);
    if ops != [] {
      assert ops == [] + [ops[0]];
      ApplyOneMore(have, [], ops[0]);
    }
  }

  ghost function Carried(keys: seq<string>, have: Objects, want: Objects): Objects
    requires Known(keys, have, want)
  {
    ApplyAll(have, Build(keys, have, want).operations)
  }

  lemma CarriedStep(keys: seq<string>, have: Objects, want: Objects)
    requires Known(keys, have, want) && keys != []
    ensures var front, last := keys[..|keys| - 1], keys[|keys| - 1];
      Carried(keys, have, want) ==
      if Ops(have, want, last) == [] then Carried(front, have, want)
      else ApplyOp(Carried(front, have, want), Ops(have, want, last)[0])
  {
    var before, ops := Build(keys[..|keys| - 1], have, want).operations, Ops(have, want, keys[|keys| - 1]);
    if ops == [] {
      assert before + ops == before;
    } else {
      assert ops == [ops[0]];
      ApplyOneMore(have, before, ops[0]);
    }
  }

  /** Operations act key by key: a planned key ends as its own operation leaves it, every other key is untouched. */
  lemma {:induction false} ApplyPointwise(keys: seq<string>, have: Objects, want: Objects, k: string)
    requires Keyed(have) && Keyed(want) && Known(keys, have, want) && Distinct(keys)
    ensures k in keys ==> SameAt(Carried(keys, have, want), After(have, want, k), k)
    ensures k !in keys ==> SameAt(Carried(keys, have, want), have, k)
    decreases |keys|
  {
    if keys != [] {
      var front, last := keys[..|keys| - 1], keys[|keys| - 1];
      assert keys == front + [last];
      ApplyPointwise(front, have, want, k);
      CarriedStep(keys, have, want);
      OpKey(have, want, last);
      var ops, s := Ops(have, want, last), Carried(front, have, want);
      if k == last {
        AfterOps(have, want, last);
        if ops != [] { ApplyOpAt(s, have, ops[0], k); }
      } else if ops != [] {
        ApplyOpAt(s, s, ops[0], k);
      }
    }
  }

  /** The state left after carrying out plan `p`. */
  ghost predicate Outcome(state: Objects, p: Plan, have: Objects, want: Objects) {
    Keyed(have) && Keyed(want) && IsPlan(p, have, want) && state == ApplyAll(have, p.operations)
  }

  lemma OutcomeAt(state: Objects, p: Plan, have: Objects, want: Objects, k: string)
    requires Outcome(state, p, have, want)
    ensures if k in have || k in want then SameAt(state, After(have, want, k), k) else k !in state
  {
    var keys :| AllKeys(keys, have, want) && Known(keys, have, want) && p == Build(keys, have, want);
    TextLessTotal();
    assert Distinct(keys);
    ApplyPointwise(keys, have, want, k);
    assert k in keys <==> k in have || k in want;
  }

  /** A foreign object is left exactly as it was, unless the desired object explicitly adopts it with an
      equal value, and even then its value stays. */
  lemma ForeignUntouched(state: Objects, p: Plan, have: Objects, want: Objects, k: string)
    requires Outcome(state, p, have, want) && k in have && !have[k].owned
    ensures k in state && state[k].value == have[k].value
    ensures !(k in want && want[k].allowAdopt && want[k].value == have[k].value) ==> state[k] == have[k]
  {
    OutcomeAt(state, p, have, want, k);
    AfterOps(have, want, k);
    OpKey(have, want, k);
  }

  /** Apart from collisions, a desired object ends present, owned and with its desired value, and an
      owned object that is not desired is gone. */
  lemma OutcomeMeetsDesired(state: Objects, p: Plan, have: Objects, want: Objects, k: string)
    requires Outcome(state, p, have, want) && !Collides(have, want, k)
    ensures k in want ==> k in state && state[k].owned && state[k].value == want[k].value
    ensures k in state && state[k].owned ==> k in want
  {
    OutcomeAt(state, p, have, want, k);
    if k in have || k in want {
      AfterOps(have, want, k);
      OpKey(have, want, k);
    }
  }

  lemma {:induction false} NoDriftNoCollision(keys: seq<string>, have: Objects, want: Objects)
    requires Known(keys, have, want)
    ensures Build(keys, have, want).drift == [] <==> forall k :: k in keys ==> !Collides(have, want, k)
    decreases |keys|
  {
    if keys != [] {
      var front, last := keys[..|keys| - 1], keys[|keys| - 1];
      NoDriftNoCollision(front, have, want);
      assert forall k :: k in keys <==> k in front || k == last by { assert keys == front + [last]; }
    }
  }

  lemma {:induction false} DriftBlocks(keys: seq<string>, have: Objects, want: Objects, i: nat)
    requires Known(keys, have, want) && i < |Build(keys, have, want).drift|
    ensures Build(keys, have, want).drift[i].blocking
    decreases |keys|
  {
    var front := keys[..|keys| - 1];
    if i < |Build(front, have, want).drift| { DriftBlocks(front, have, want, i); }
  }

  /** Drift is reported, always blocking, exactly when some desired key collides with a foreign object. */
  lemma DriftMeansCollision(p: Plan, have: Objects, want: Objects)
    requires IsPlan(p, have, want)
    ensures p.drift == [] <==> forall k :: !Collides(have, want, k)
    ensures (exists i :: 0 <= i < |p.drift| && p.drift[i].blocking) <==> p.drift != []
  {
    var keys :| AllKeys(keys, have, want) && Known(keys, have, want) && p == Build(keys, have, want);
    NoDriftNoCollision(keys, have, want);
    assert forall k :: Collides(have, want, k) ==> k in keys;
    if p.drift != [] { DriftBlocks(keys, have, want, 0); }
  }

  /** Convergence: without drift, carrying out the plan makes the owned objects exactly the desired ones. */
  lemma PlanConverges(state: Objects, p: Plan, have: Objects, want: Objects)
    requires Outcome(state, p, have, want) && p.drift == []
    ensures forall k :: k in want ==> k in state && state[k].owned && state[k].value == want[k].value
    ensures forall k :: k in state && state[k].owned ==> k in want
  {
    DriftMeansCollision(p, have, want);
    forall k
      ensures k in want ==> k in state && state[k].owned && state[k].value == want[k].value
      ensures k in state && state[k].owned ==> k in want
    {
      OutcomeMeetsDesired(state, p, have, want, k);
    }
  }

  // ---- re-planning ----

  lemma CollisionsRemain(state: Objects, p: Plan, have: Objects, want: Objects, k: string)
    requires Outcome(state, p, have, want)
    ensures Collides(state, want, k) <==> Collides(have, want, k)
    ensures k in state || k in want ==> Ops(state, want, k) == []
  {
    if Collides(have, want, k) {
      ForeignUntouched(state, p, have, want, k);
    } else {
      OutcomeMeetsDesired(state, p, have, want, k);
    }
  }

  /** The keys among `keys` that collide, in order. */
  ghost function Colliding(keys: seq<string>, have: Objects, want: Objects): seq<string> {
    if keys == [] then []
    else
      var front, k := Colliding(keys[..|keys| - 1], have, want), keys[|keys| - 1];
      if Collides(have, want, k) then front + [k] else front
  }

  lemma {:induction false} CollidingInOrder(keys: seq<string>, have: Objects, want: Objects)
    requires Ascending(keys, TextLess)
    ensures Ascending(Colliding(keys, have, want), TextLess)
    ensures forall k :: k in Colliding(keys, have, want) <==> k in keys && Collides(have, want, k)
    decreases |keys|
  {
    if keys != [] {
      var front, last := keys[..|keys| - 1], keys[|keys| - 1];
      CollidingInOrder(front, have, want);
      assert keys == front + [last];
      forall i | 0 <= i < |Colliding(front, have, want)| ensures TextLess(Colliding(front, have, want)[i], last) {
        assert Colliding(front, have, want)[i] in front;
      }
    }
  }

  ghost function Reports(keys: seq<string>, want: Objects): seq<Drift> {
    if keys == [] then []
    else
      var front, k := Reports(keys[..|keys| - 1], want), keys[|keys| - 1];
      front + if k in want then [Drift(want[k].kind, want[k].id, true)] else []
  }

  lemma {:induction false} DriftIsReports(keys: seq<string>, have: Objects, want: Objects)
    requires Known(keys, have, want)
    ensures Build(keys, have, want).drift == Reports(Colliding(keys, have, want), want)
    decreases |keys|
  {
    if keys != [] {
      var front, k := keys[..|keys| - 1], keys[|keys| - 1];
      DriftIsReports(front, have, want);
      var c := Colliding(front, have, want);
      assert (c + [k])[..|c|] == c;
    }
  }

  lemma {:induction false} NothingToDo(keys: seq<string>, state: Objects, want: Objects)
    requires Known(keys, state, want)
    requires forall i :: 0 <= i < |keys| ==> Ops(state, want, keys[i]) == []
    ensures Build(keys, state, want).operations == []
    decreases |keys|
  {
    if keys != [] { NothingToDo(keys[..|keys| - 1], state, want); }
  }

  /** Idempotence: planning again from the state a plan leaves yields no operation and the same drift,
      so nothing at all when there was none. */
  lemma ReplanIsQuiet(state: Objects, p: Plan, q: Plan, have: Objects, want: Objects)
    requires Outcome(state, p, have, want) && IsPlan(q, state, want)
    ensures q.operations == [] && q.drift == p.drift
  {
    var ks :| AllKeys(ks, have, want) && Known(ks, have, want) && p == Build(ks, have, want);
    var qs :| AllKeys(qs, state, want) && Known(qs, state, want) && q == Build(qs, state, want);
    forall k ensures Collides(state, want, k) <==> Collides(have, want, k)
    {
      CollisionsRemain(state, p, have, want, k);
    }
    forall i | 0 <= i < |qs| ensures Ops(state, want, qs[i]) == [] {
      CollisionsRemain(state, p, have, want, qs[i]);
    }
    NothingToDo(qs, state, want);
    CollidingInOrder(ks, have, want);
    CollidingInOrder(qs, state, want);
    TextLessTotal();
    AscendingUnique(Colliding(qs, state, want), Colliding(ks, have, want), TextLess);
    DriftIsReports(ks, have, want);
    DriftIsReports(qs, state, want);
  }

  // ---- reading a plan ----

  lemma {:induction false} BuildOps(keys: seq<string>, have: Objects, want: Objects, op: Operation)
    requires Known(keys, have, want)
    ensures op in Build(keys, have, want).operations <==>
      exists i :: 0 <= i < |keys| && op in Ops(have, want, keys[i])
    decreases |keys|
  {
    if keys != [] {
      var front, n := keys[..|keys| - 1], |keys| - 1;
      BuildOps(front, have, want, op);
      assert forall i :: 0 <= i < n ==> front[i] == keys[i];
      if op in Ops(have, want, keys[n]) { assert 0 <= n < |keys|; }
      if i :| 0 <= i < |keys| && op in Ops(have, want, keys[i]) {
        if i < n { assert op in Ops(have, want, front[i]); }
      }
    }
  }

  /** What an operation says: add where nothing is, delete where nothing is wanted, the value before and after, and the
      evidence of the owned object it changes or of the wanted one it brings in. */
  ghost predicate Describes(op: Operation, have: Objects, want: Objects) {
    var k := KeyOf(op.kind, op.id);
    && (k in have || k in want)
    && (op.action == Add <==> k !in have) && (op.action == Delete <==> k !in want)
    && op.before == (if k in have then have[k].value else "") && op.after == (if k in want then want[k].value else "")
    && op.evidence ==
       (if k in have && have[k].owned then have[k].evidence else if k in want then want[k].evidence else "")
  }

  /** A key is operated on when a wanted object is missing, differs from an owned one or adopts an equal foreign one,
      and when an owned object is not wanted. */
  ghost predicate Needed(have: Objects, want: Objects, k: string) {
    if k in want then
      || k !in have
      || (have[k].owned && have[k].value != want[k].value)
      || (!have[k].owned && want[k].allowAdopt && have[k].value == want[k].value)
    else k in have && have[k].owned
  }

  lemma OpDescribes(have: Objects, want: Objects, k: string, op: Operation)
    requires Keyed(have) && Keyed(want) && (k in have || k in want) && op in Ops(have, want, k)
    ensures KeyOf(op.kind, op.id) == k && Describes(op, have, want) && Needed(have, want, k)
  {
    OpKey(have, want, k);
  }

  /** Every operation says what it does, and there is one exactly for the keys that need it. */
  lemma OperationsExact(p: Plan, have: Objects, want: Objects)
    requires IsPlan(p, have, want) && Keyed(have) && Keyed(want)
    ensures forall op :: op in p.operations ==> Describes(op, have, want) && Needed(have, want, KeyOf(op.kind, op.id))
    ensures forall k :: Needed(have, want, k) ==> exists op :: op in p.operations && KeyOf(op.kind, op.id) == k
  {
    forall op | op in p.operations ensures Describes(op, have, want) && Needed(have, want, KeyOf(op.kind, op.id)) {
      PlanOps(p, have, want, op);
      var k :| (k in have || k in want) && op in Ops(have, want, k);
      OpDescribes(have, want, k, op);
    }
    forall k | Needed(have, want, k) ensures exists op :: op in p.operations && KeyOf(op.kind, op.id) == k {
      var op := NeededOp(have, want, k);
      PlanOps(p, have, want, op);
    }
  }

  lemma NeededOp(have: Objects, want: Objects, k: string) returns (op: Operation)
    requires Keyed(have) && Keyed(want) && Needed(have, want, k)
    ensures op in Ops(have, want, k) && KeyOf(op.kind, op.id) == k
  {
    op := Ops(have, want, k)[0];
    OpKey(have, want, k);
  }

  /** Operations on some of the keys, in the text order of their keys, at most one for each. */
  ghost predicate InKeyOrder(ops: seq<Operation>, keys: seq<string>) {
    && (forall i :: 0 <= i < |ops| ==> KeyOf(ops[i].kind, ops[i].id) in keys)
    && (forall i, j :: 0 <= i < j < |ops| ==>
          TextLess(KeyOf(ops[i].kind, ops[i].id), KeyOf(ops[j].kind, ops[j].id)))
  }

  lemma InKeyOrderGrows(ops: seq<Operation>, keys: seq<string>, op: Operation, k: string)
    requires InKeyOrder(ops, keys) && KeyOf(op.kind, op.id) == k && forall x :: x in keys ==> TextLess(x, k)
    ensures InKeyOrder(ops + [op], keys + [k])
  {
    var more := ops + [op];
    forall i | 0 <= i < |ops| ensures TextLess(KeyOf(more[i].kind, more[i].id), k) {
      assert KeyOf(ops[i].kind, ops[i].id) in keys;
    }
  }

  lemma {:induction false} BuildInOrder(keys: seq<string>, have: Objects, want: Objects)
    requires Known(keys, have, want) && Keyed(have) && Keyed(want) && Ascending(keys, TextLess)
    ensures InKeyOrder(Build(keys, have, want).operations, keys)
    decreases |keys|
  {
    if keys != [] {
      var front, last := keys[..|keys| - 1], keys[|keys| - 1];
      assert keys == front + [last];
      BuildInOrder(front, have, want);
      OpKey(have, want, last);
      var before, added := Build(front, have, want).operations, Ops(have, want, last);
      if added == [] {
        assert before + added == before;
      } else {
        assert before + added == before + [added[0]];
        InKeyOrderGrows(before, front, added[0], last);
      }
    }
  }

  /** A plan's operations stand in the text order of their keys, at most one for each. */
  lemma OperationsInOrder(p: Plan, have: Objects, want: Objects) returns (keys: seq<string>)
    requires IsPlan(p, have, want) && Keyed(have) && Keyed(want)
    ensures AllKeys(keys, have, want) && InKeyOrder(p.operations, keys)
  {
    keys :| AllKeys(keys, have, want) && Known(keys, have, want) && p == Build(keys, have, want);
    BuildInOrder(keys, have, want);
  }

  /** The drift names exactly the wanted objects whose key a foreign one holds, each as blocking. */
  lemma DriftExact(p: Plan, have: Objects, want: Objects, d: Drift)
    requires IsPlan(p, have, want)
    ensures d in p.drift <==> exists k :: Collides(have, want, k) && d == Drift(want[k].kind, want[k].id, true)
  {
    var keys :| AllKeys(keys, have, want) && Known(keys, have, want) && p == Build(keys, have, want);
    BuildDrift(keys, have, want, d);
    assert forall k :: Collides(have, want, k) ==> k in keys;
  }

  lemma {:induction false} BuildDrift(keys: seq<string>, have: Objects, want: Objects, d: Drift)
    requires Known(keys, have, want)
    ensures d in Build(keys, have, want).drift <==>
      exists k :: k in keys && Collides(have, want, k) && d == Drift(want[k].kind, want[k].id, true)
    decreases |keys|
  {
    if keys != [] {
      var front, last := keys[..|keys| - 1], keys[|keys| - 1];
      assert keys == front + [last];
      BuildDrift(front, have, want, d);
      if k :| k in keys && Collides(have, want, k) && d == Drift(want[k].kind, want[k].id, true) {
        assert k in front || k == last;
      }
      if d in Drifts(have, want, last) { assert last in keys; }
      if k :| k in front && Collides(have, want, k) && d == Drift(want[k].kind, want[k].id, true) { assert k in keys; }
    }
  }

  /** A plan's operations are exactly the operations of the keys involved. */
  lemma PlanOps(p: Plan, have: Objects, want: Objects, op: Operation)
    requires IsPlan(p, have, want)
    ensures op in p.operations <==> exists k :: (k in have || k in want) && op in Ops(have, want, k)
  {
    var keys :| AllKeys(keys, have, want) && Known(keys, have, want) && p == Build(keys, have, want);
    BuildOps(keys, have, want, op);
    if k :| (k in have || k in want) && op in Ops(have, want, k) {
      assert k in keys;
      var i :| 0 <= i < |keys| && keys[i] == k;
      assert op in Ops(have, want, keys[i]);
    }
    if i :| 0 <= i < |keys| && op in Ops(have, want, keys[i]) {
      assert keys[i] in keys;
    }
  }
}
