/** Which addresses lead the selections of consecutive calls. */
module AddressFairness {
  import opened Ordering
  import opened NetAddr
  import opened AddressSelection

  // ---- residues ----

  lemma ModOf(n: int, q: int, v: int)
    requires n > 0 && 0 <= v < n
    ensures (n * q + v) % n == v
  {
    var x := n * q + v;
    var d := x / n - q;
    assert n * (x / n) == n * q + n * d;
    assert n * d == v - x % n;
    assert d >= 1 ==> n * d >= n * 1;
    assert d <= -1 ==> n * d <= n * -1;
  }

  /** Moving `d` on from `x` moves its residue on, round the corner at `n`. */
  lemma ModStep(n: nat, x: nat, d: nat)
    requires 0 < n && d < n
    ensures (x + d) % n == if x % n + d < n then x % n + d else x % n + d - n
  {
    var q, r := x / n, x % n;
    assert x == n * q + r;
    if r + d < n {
      ModOf(n, q, r + d);
    } else {
      assert x + d == n * (q + 1) + (r + d - n);
      ModOf(n, q + 1, r + d - n);
    }
  }

  lemma ModShift(n: nat, x: nat, k: nat)
    requires 0 < n && k % n == 0
    ensures (x + k) % n == x % n
  {
    var q, r, j := x / n, x % n, k / n;
    assert x == n * q + r && k == n * j;
    assert x + k == n * (q + j) + r;
    ModOf(n, q + j, r);
  }

  /** The counter's residues run on cyclically unless it wraps in between and `n` does not divide 2^64. */
  lemma ResidueKept(n: nat, base: nat, d: nat)
    requires 0 < n && base < WRAP && d < n && (base + n <= WRAP || WRAP % n == 0)
    ensures SequenceAt(base, d) % n == (base + d) % n
  {
    if base + d < WRAP {
      BelowWrap(base, d);
    } else {
      Divides(n);
      PastWrap(base, d);
      ModShift(n, base + d - WRAP, WRAP);
    }
  }

  lemma Divides(n: nat)
    requires n > 0
    ensures WRAP % n == 0 ==> n <= WRAP
  {
    if n > WRAP { ModOf(n, 0, WRAP); }
  }

  lemma BelowWrap(base: nat, d: nat)
    requires base + d < WRAP
    ensures SequenceAt(base, d) == base + d
  {}

  lemma PastWrap(base: nat, d: nat)
    requires base < WRAP <= base + d && d <= WRAP
    ensures SequenceAt(base, d) == base + d - WRAP
  {
    ModOf(WRAP, 1, base + d - WRAP);
  }

  lemma ResidueBeforeWrap(n: nat, j: nat, d: nat)
    requires 0 < n && d < j <= n && j <= WRAP
    ensures var r := WRAP % n; (WRAP - j + d) % n == if r - j + d >= 0 then r - j + d else r - j + d + n
  {
    var q, r := WRAP / n, WRAP % n;
    assert WRAP == n * q + r;
    var v := r - j + d;
    if v >= 0 {
      ModOf(n, q, v);
    } else {
      assert WRAP - j + d == n * (q - 1) + (v + n);
      ModOf(n, q - 1, v + n);
    }
  }

  /** Otherwise `n` calls pass one position over. */
  lemma SkippedPosition(n: nat, base: nat) returns (a: nat)
    requires 0 < n && base < WRAP < base + n && WRAP % n != 0
    ensures a < n && forall d :: 0 <= d < n ==> SequenceAt(base, d) % n != a
  {
    if n > WRAP {
      a := WRAP;
      forall d | 0 <= d < n ensures SequenceAt(base, d) % n != a { ModOf(n, 0, SequenceAt(base, d)); }
    } else {
      var j, r := WRAP - base, WRAP % n;
      a := if r >= j then n - 1 else n + r - j - 1;
      forall d | 0 <= d < n ensures SequenceAt(base, d) % n != a {
        if d < j {
          ResidueBeforeWrap(n, j, d);
          BelowWrap(base, d);
          assert base + d == WRAP - j + d;
        } else {
          PastWrap(base, d);
          ModOf(n, 0, base + d - WRAP);
        }
      }
    }
  }

  // ---- each address leads once ----

  /** Rotation moves every address round, not only the first. */
  lemma RotatedAt<T>(s: seq<T>, k: nat, i: nat)
    requires i < |s|
    ensures RotatedLeft(s, k)[i] == s[(k + i) % |s|]
  {
    ModStep(|s|, k, i);
  }

  lemma RotationLeads<T>(s: seq<T>, k: nat)
    requires |s| > 0
    ensures k % |s| < |s| && RotatedLeft(s, k)[0] == s[k % |s|]
  {}

  /** `a` leads `s` in the `d`-th call from `base` on. */
  ghost predicate LeadsAt<T>(s: seq<T>, base: nat, d: nat, a: T) {
    |s| > 0 && RotatedLeft(s, SequenceAt(base, d))[0] == a
  }

  /** Of the `|s|` calls from `base` on exactly one is led by `a`. */
  ghost predicate LeadsOnce<T>(s: seq<T>, base: nat, a: T) {
    exists d: nat :: d < |s| && LeadsAt(s, base, d, a) && forall e: nat :: e < |s| && LeadsAt(s, base, e, a) ==> e == d
  }

  lemma LeadsAtPosition<T>(s: seq<T>, base: nat, d: nat, i: nat)
    requires Distinct(s) && i < |s|
    ensures LeadsAt(s, base, d, s[i]) <==> SequenceAt(base, d) % |s| == i
  {
    RotationLeads(s, SequenceAt(base, d));
  }

  lemma PositionLeadsOnce<T>(s: seq<T>, base: nat, i: nat)
    requires Distinct(s) && i < |s| && base < WRAP && (base + |s| <= WRAP || WRAP % |s| == 0)
    ensures LeadsOnce(s, base, s[i])
  {
    var n, r := |s|, base % |s|;
    var d := if i >= r then i - r else n - r + i;
    ModStep(n, base, d);
    ResidueKept(n, base, d);
    LeadsAtPosition(s, base, d, i);
    forall e: nat | e < n && LeadsAt(s, base, e, s[i]) ensures e == d {
      ModStep(n, base, e);
      ResidueKept(n, base, e);
      LeadsAtPosition(s, base, e, i);
    }
  }

  lemma SomeNeverLeads<T>(s: seq<T>, base: nat) returns (i: nat)
    requires Distinct(s) && s != [] && base < WRAP < base + |s| && WRAP % |s| != 0
    ensures i < |s| && !LeadsOnce(s, base, s[i])
  {
    i := SkippedPosition(|s|, base);
    forall d: nat | d < |s| ensures !LeadsAt(s, base, d, s[i]) { LeadsAtPosition(s, base, d, i); }
  }

  /** Fairness: with the same answer and policy over as many calls as a family has addresses, each of them leads
      its family exactly once, if and only if the 64-bit call counter does not wrap in between or the number of
      addresses divides 2^64. */
  lemma RotationFairness(input: seq<Addr>, allowed: Addr -> bool, v4: bool, base: nat)
    requires base < WRAP && Only(Distil(input, allowed), v4) != []
    ensures var s := Only(Distil(input, allowed), v4);
      (forall a :: a in s ==> LeadsOnce(s, base, a)) <==> base + |s| <= WRAP || WRAP % |s| == 0
  {
    var s := Only(Distil(input, allowed), v4);
    OnlyDistinct(Distil(input, allowed), v4);
    if base + |s| <= WRAP || WRAP % |s| == 0 {
      forall a | a in s ensures LeadsOnce(s, base, a) {
        var i :| 0 <= i < |s| && s[i] == a;
        PositionLeadsOnce(s, base, i);
      }
    } else {
      var i := SomeNeverLeads(s, base);
      assert s[i] in s;
    }
  }

  lemma {:induction false} OnlyDistinct(s: seq<Addr>, v4: bool)
    requires Distinct(s)
    ensures Distinct(Only(s, v4)) && forall a :: a in Only(s, v4) <==> a in s && a.V4? == v4
    decreases |s|
  {
    if s != [] {
      var front := s[..|s| - 1];
      assert s == front + [s[|s| - 1]];
      OnlyDistinct(front, v4);
    }
  }

  // ---- interleaving ties the rotation to the leading family ----

  /** Some counter value makes the selection start with `a`. */
  ghost predicate EverLeads(strategy: Strategy, cap: int, input: seq<Addr>, allowed: Addr -> bool, a: Addr) {
    exists q: nat :: q < WRAP && Heads(strategy, cap, input, allowed, q, a)
  }

  ghost predicate Heads(strategy: Strategy, cap: int, input: seq<Addr>, allowed: Addr -> bool, q: nat, a: Addr) {
    var r := Selection(strategy, cap, input, allowed, q);
    |r| > 0 && r[0] == a
  }

  /** Some counter value of the given parity has residue `j`: `j` itself, or `j + n` for an odd `n`. */
  predicate Reachable(n: nat, j: nat, parity: nat) {
    if j % 2 == parity then j < WRAP else n % 2 == 1 && j + n < WRAP
  }

  lemma Doubling(m: nat, k: nat)
    ensures (2 * m) * k == 2 * (m * k) && (2 * m + 1) * k == 2 * (m * k) + k
  {}

  lemma ProductParity(n: nat, k: nat)
    ensures (n * k) % 2 == if n % 2 == 0 then 0 else k % 2
  {
    var m := n / 2;
    Doubling(m, k);
    var p := m * k;
    assert n == if n % 2 == 0 then 2 * m else 2 * m + 1;
    assert n * k == if n % 2 == 0 then 2 * p else 2 * p + k;
  }

  lemma ProductBounds(n: nat, k: nat)
    ensures n * k >= 0 && (k >= 1 ==> n * k >= n)
  {
    if k >= 1 { assert n * k == n * (k - 1) + n; }
  }

  lemma ReachableOnly(n: nat, j: nat, parity: nat, q: nat)
    requires j < n && parity < 2 && q < WRAP && q % 2 == parity && q % n == j
    ensures Reachable(n, j, parity)
  {
    var k, p := Factors(q, n);
    ReachableFrom(n, k, p, j, parity, q);
  }

  lemma Factors(q: nat, n: nat) returns (k: nat, p: nat)
    requires n > 0
    ensures q == p + q % n && p % 2 == (if n % 2 == 0 then 0 else k % 2) && (k >= 1 ==> p >= n)
  {
    k := q / n;
    p := n * k;
    ProductParity(n, k);
    ProductBounds(n, k);
  }

  lemma ReachableFrom(n: nat, k: nat, p: nat, j: nat, parity: nat, q: nat)
    requires q == p + j && q < WRAP && parity < 2 && q % 2 == parity
    requires p % 2 == (if n % 2 == 0 then 0 else k % 2) && (k >= 1 ==> p >= n)
    ensures Reachable(n, j, parity)
  {}

  lemma ReachableBy(n: nat, j: nat, parity: nat) returns (q: nat)
    requires j < n && parity < 2 && Reachable(n, j, parity)
    ensures q < WRAP && q % 2 == parity && q % n == j
  {
    if j % 2 == parity {
      q := j;
      ModOf(n, 0, j);
    } else {
      q := j + n;
      ModOf(n, 1, j);
    }
  }

  lemma InterleaveHead(cap: int, input: seq<Addr>, allowed: Addr -> bool, q: nat)
    requires cap > 0 && Only(Distil(input, allowed), true) != [] && Only(Distil(input, allowed), false) != []
    ensures var s := Only(Distil(input, allowed), q % 2 == 1); Heads(Interleave, cap, input, allowed, q, s[q % |s|])
  {
    var v4, v6 := Only(Distil(input, allowed), true), Only(Distil(input, allowed), false);
    RotationLeads(v4, q);
    RotationLeads(v6, q);
  }

  /** Exactly which addresses ever come first under interleaving when both families are present: the call
      counter picks the leading family by its parity and the rotation by its residue, so of a family with an
      even number of addresses only those at positions of its own parity (even for IPv6, odd for IPv4) ever lead;
      of a family with an odd number all do. With an attempt cap of one the others are never dialed. */
  lemma InterleaveLeaders(cap: int, input: seq<Addr>, allowed: Addr -> bool, v4: bool, j: nat)
    requires cap > 0 && Only(Distil(input, allowed), true) != [] && Only(Distil(input, allowed), false) != []
    requires j < |Only(Distil(input, allowed), v4)|
    ensures var s := Only(Distil(input, allowed), v4);
      EverLeads(Interleave, cap, input, allowed, s[j]) <==> Reachable(|s|, j, if v4 then 1 else 0)
  {
    var s, parity := Only(Distil(input, allowed), v4), if v4 then 1 else 0;
    if Reachable(|s|, j, parity) {
      var q := ReachableBy(|s|, j, parity);
      InterleaveHead(cap, input, allowed, q);
    }
    if q: nat :| q < WRAP && Heads(Interleave, cap, input, allowed, q, s[j]) {
      InterleaveHead(cap, input, allowed, q);
      HeadPosition(input, allowed, v4, j, q);
      ReachableOnly(|s|, j, parity, q);
    }
  }

  lemma HeadPosition(input: seq<Addr>, allowed: Addr -> bool, v4: bool, j: nat, q: nat)
    requires Only(Distil(input, allowed), true) != [] && Only(Distil(input, allowed), false) != []
    requires j < |Only(Distil(input, allowed), v4)|
    requires var s := Only(Distil(input, allowed), q % 2 == 1); s[q % |s|] == Only(Distil(input, allowed), v4)[j]
    ensures q % 2 == (if v4 then 1 else 0) && q % |Only(Distil(input, allowed), v4)| == j
  {
    var kept := Distil(input, allowed);
    var s, lead := Only(kept, v4), Only(kept, q % 2 == 1);
    OnlyDistinct(kept, true);
    OnlyDistinct(kept, false);
    assert s[j] in s && lead[q % |lead|] in lead;
  }

  // ---- inputs that show it ----

  predicate Anything(a: Addr) { true }

  /** Distinct usable addresses that need no unmapping are all kept, in order. */
  lemma {:induction false} AllKept(input: seq<Addr>)
    requires Distinct(input) && forall i :: 0 <= i < |input| ==> Usable(input[i]) && Unmap(input[i]) == input[i]
    ensures Distil(input, Anything) == input
    decreases |input|
  {
    if input != [] {
      var front := input[..|input| - 1];
      AllKept(front);
      assert input == front + [input[|input| - 1]];
    }
  }

  lemma FamiliesOfThree(a: Addr, b: Addr, c: Addr, v4: bool)
    ensures Only([a, b, c], v4) ==
      (if a.V4? == v4 then [a] else []) + (if b.V4? == v4 then [b] else []) + (if c.V4? == v4 then [c] else [])
  {
    assert [a, b, c][..2] == [a, b] && [a, b][..1] == [a] && [a][..0] == [];
    assert Only([a], v4) == if a.V4? == v4 then [a] else [];
    assert Only([a, b], v4) == Only([a], v4) + if b.V4? == v4 then [b] else [];
  }

  /** Three addresses and the counter at its last value: in the next three calls the first address leads twice and
      the third never. */
  lemma RotationUnfair()
    ensures var s := Only(Distil([V4(1), V4(2), V4(3)], Anything), true);
      && s == [V4(1), V4(2), V4(3)]
      && LeadsAt(s, WRAP - 1, 0, V4(1)) && LeadsAt(s, WRAP - 1, 1, V4(1)) && LeadsAt(s, WRAP - 1, 2, V4(2))
      && !LeadsOnce(s, WRAP - 1, V4(3))
  {
    var input := [V4(1), V4(2), V4(3)];
    AllKept(input);
    FamiliesOfThree(V4(1), V4(2), V4(3), true);
    assert input[0] == V4(1) && input[1] == V4(2) && input[2] == V4(3);
    ThreeLeaders(input);
  }

  lemma ThreeLeaders<T>(s: seq<T>)
    requires |s| == 3 && Distinct(s)
    ensures LeadsAt(s, WRAP - 1, 0, s[0]) && LeadsAt(s, WRAP - 1, 1, s[0]) && LeadsAt(s, WRAP - 1, 2, s[1])
    ensures !LeadsOnce(s, WRAP - 1, s[2])
  {
    LastThreeResidues();
    LeadsAtPosition(s, WRAP - 1, 0, 0);
    LeadsAtPosition(s, WRAP - 1, 1, 0);
    LeadsAtPosition(s, WRAP - 1, 2, 1);
    var base, last := WRAP - 1, s[2];
    forall d: nat | d < 3 ensures !LeadsAt(s, base, d, last) { LeadsAtPosition(s, base, d, 2); }
  }

  lemma LastThreeResidues()
    ensures SequenceAt(WRAP - 1, 0) % 3 == 0 && SequenceAt(WRAP - 1, 1) % 3 == 0 && SequenceAt(WRAP - 1, 2) % 3 == 1
  {}

  /** One IPv4 and two IPv6 addresses: whatever the counter, the second IPv6 address never comes first, and with an
      attempt cap of one it is never selected. */
  lemma InterleaveStarves(cap: int, q: nat)
    requires cap > 0 && q < WRAP
    ensures var input := [V4(1), V6(2, ""), V6(3, "")];
      && V6(3, "") in Distil(input, Anything)
      && !Heads(Interleave, cap, input, Anything, q, V6(3, ""))
      && V6(3, "") !in Selection(Interleave, 1, input, Anything, q)
  {
    var input := [V4(1), V6(2, ""), V6(3, "")];
    OneAndTwo(input);
    NeverFirst(cap, input, q);
    NeverFirst(1, input, q);
    SelectionSound(Interleave, 1, input, Anything, q);
  }

  lemma OneAndTwo(input: seq<Addr>)
    requires input == [V4(1), V6(2, ""), V6(3, "")]
    ensures V6(3, "") in Distil(input, Anything)
    ensures Only(Distil(input, Anything), true) == [V4(1)]
    ensures Only(Distil(input, Anything), false) == [V6(2, ""), V6(3, "")]
  {
    AllKept(input);
    assert input[2] == V6(3, "");
    FamiliesOfThree(V4(1), V6(2, ""), V6(3, ""), true);
    FamiliesOfThree(V4(1), V6(2, ""), V6(3, ""), false);
  }

  lemma NeverFirst(cap: int, input: seq<Addr>, q: nat)
    requires cap > 0 && q < WRAP && Only(Distil(input, Anything), true) == [V4(1)]
    requires Only(Distil(input, Anything), false) == [V6(2, ""), V6(3, "")]
    ensures !Heads(Interleave, cap, input, Anything, q, V6(3, ""))
  {
    InterleaveLeaders(cap, input, Anything, false, 1);
    assert !EverLeads(Interleave, cap, input, Anything, V6(3, ""));
  }
}
