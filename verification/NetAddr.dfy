/** Addresses as the standard library's netip package sees them, already parsed. */
module NetAddr {

  datatype Addr =
    | NoAddr
    | V4(value: nat)
    | V4in6(value: nat, zone: string)
    | V6(value: nat, zone: string)

  predicate IsValid(a: Addr) { !a.NoAddr? }

  function Zone(a: Addr): string { if a.V4in6? || a.V6? then a.zone else "" }

  /** Drops the IPv4-mapped prefix; every other address is unchanged. */
  function Unmap(a: Addr): Addr { if a.V4in6? then V4(a.value) else a }

  predicate Usable(a: Addr) { IsValid(a) && Zone(a) == "" }

  /** The usable addresses of `input`, unmapped, kept by `allowed`, each at its first occurrence. */
  function Distil(input: seq<Addr>, allowed: Addr -> bool): (r: seq<Addr>)
    ensures forall a :: a in r <==> exists i :: 0 <= i < |input| && Kept(input[i], a, allowed)
    ensures forall i, j :: 0 <= i < j < |r| ==> r[i] != r[j]
  {
    if input == [] then []
    else
      var front, a := Distil(input[..|input| - 1], allowed), Unmap(input[|input| - 1]);
      assert forall i :: 0 <= i < |input| - 1 ==> input[..|input| - 1][i] == input[i];
      if Usable(input[|input| - 1]) && allowed(a) && a !in front then
        assert Kept(input[|input| - 1], a, allowed);
        front + [a]
      else front
  }

  /** `a` is first kept at position `p`. */
  predicate FirstAt(input: seq<Addr>, allowed: Addr -> bool, a: Addr, p: nat) {
    p < |input| && Kept(input[p], a, allowed) && forall q :: 0 <= q < p ==> !Kept(input[q], a, allowed)
  }

  /** The kept addresses stand in the order of their first occurrences. */
  lemma {:induction false} DistilInOrder(input: seq<Addr>, allowed: Addr -> bool, i: nat, j: nat, p: nat, q: nat)
    requires i < j < |Distil(input, allowed)|
    requires FirstAt(input, allowed, Distil(input, allowed)[i], p)
    requires FirstAt(input, allowed, Distil(input, allowed)[j], q)
    ensures p < q
    decreases |input|
  {
    var r, front, last := Distil(input, allowed), Distil(input[..|input| - 1], allowed), |input| - 1;
    assert forall k :: 0 <= k < last ==> input[..last][k] == input[k];
    assert front <= r;
    assert r[i] in front && FirstAt(input[..last], allowed, r[i], p) by {
      var k :| 0 <= k < last && Kept(input[..last][k], front[i], allowed);
    }
    if j < |front| {
      assert r[j] in front && FirstAt(input[..last], allowed, r[j], q) by {
        var k :| 0 <= k < last && Kept(input[..last][k], front[j], allowed);
      }
      DistilInOrder(input[..last], allowed, i, j, p, q);
    } else {
      assert r[j] == Unmap(input[last]) && r[j] !in front;
      assert forall k :: 0 <= k < last ==> !Kept(input[..last][k], r[j], allowed);
    }
  }

  predicate Kept(raw: Addr, a: Addr, allowed: Addr -> bool) {
    Usable(raw) && a == Unmap(raw) && allowed(a)
  }
}
