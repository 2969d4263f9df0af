/** IPv4 addresses as numbers below 2^32, and prefixes as aligned power-of-two blocks. */
module Ipv4 {

  const SPACE: nat := 0x1_0000_0000
  const MAX: nat := 0xffff_ffff

  function Pow2(k: nat): (r: nat)
    ensures r >= 1
  {
    if k == 0 then 1 else 2 * Pow2(k - 1)
  }

  lemma Pow2Space()
    ensures Pow2(32) == SPACE
  {
    assert Pow2(8) == 256;
    assert Pow2(16) == 65536;
    assert Pow2(24) == 0x100_0000;
  }

  lemma {:induction false} Pow2Monotone(i: nat, j: nat)
    requires i <= j
    ensures Pow2(i) <= Pow2(j)
    ensures i < j ==> 2 * Pow2(i) <= Pow2(j)
    ensures Pow2(j) % Pow2(i) == 0
    decreases j
  {
    if i < j {
      Pow2Monotone(i, j - 1);
      var p, q := Pow2(i), Pow2(j - 1) / Pow2(i);
      assert Pow2(j - 1) == p * q;
      assert Pow2(j) == p * (2 * q);
      MultipleMod(2 * q, p);
    } else {
      assert Pow2(j) == Pow2(i) * 1;
      MultipleMod(1, Pow2(i));
    }
  }

  lemma SmallMultiple(p: int, k: int)
    requires p > 0 && 0 <= p * k < p
    ensures k == 0
  {
    assert k <= -1 || k == 0 || k >= 1;
    assert k >= 1 ==> p * k >= p * 1;
    assert k <= -1 ==> p * k <= p * -1;
  }

  /** The only multiple of `p` strictly between `-p` and `p` is zero. */
  lemma ZeroMultiple(p: int, k: int)
    requires p > 0 && -p < p * k < p
    ensures k == 0
  {
    assert k >= 1 ==> p * k >= p * 1;
    assert k <= -1 ==> p * k <= p * -1;
  }

  lemma ProductAtLeast(p: int, k: int)
    requires p >= 0 && k >= 1
    ensures p <= p * k
  {}

  lemma DoubleProduct(p: int, k: int)
    ensures (2 * p) * k == 2 * (p * k)
  {}

  lemma Distribute(p: int, a: int, b: int)
    ensures p * (a + b) == p * a + p * b && p * (a - b) == p * a - p * b
  {}

  lemma MultipleMod(q: int, p: int)
    requires p > 0
    ensures (p * q) % p == 0
  {
    var d := (p * q) / p;
    assert p * q == p * d + (p * q) % p;
    Distribute(p, q, d);
    SmallMultiple(p, q - d);
  }

  /** A prefix: the addresses `low .. low + 2^size - 1`, written `low/(32 - size)`. */
  datatype Block = Block(low: nat, size: nat)

  ghost function End(b: Block): nat { b.low + Pow2(b.size) }

  ghost predicate Covers(b: Block, x: int) { b.low <= x < End(b) }

  ghost predicate Aligned(b: Block) {
    b.size <= 32 && b.low % Pow2(b.size) == 0 && End(b) <= SPACE
  }

  lemma MultiplesApart(u: int, v: int, p: int)
    requires p > 0 && u % p == 0 && v % p == 0 && u < v
    ensures u + p <= v
  {
    var i, j := u / p, v / p;
    assert u == p * i && v == p * j;
    assert j > i || p * j <= p * i;
    assert p * j >= p * (i + 1) == p * i + p;
  }

  lemma ModDivides(x: int, p: int, q: int)
    requires p > 0 && q > 0 && q % p == 0 && x % q == 0
    ensures x % p == 0
  {
    var i, j := x / q, q / p;
    assert q == p * j;
    assert x == q * i == (p * j) * i == p * (j * i);
    MultipleMod(j * i, p);
  }

  lemma SumMod(u: int, v: int, p: int)
    requires p > 0 && u % p == 0 && v % p == 0
    ensures (u + v) % p == 0 && (u - v) % p == 0
  {
    var i, j := u / p, v / p;
    assert u == p * i && v == p * j;
    Distribute(p, i, j);
    MultipleMod(i + j, p);
    MultipleMod(i - j, p);
  }

  /** Prefixes nest: of two that meet, the one with fewer addresses lies inside the other. */
  lemma Laminar(a: Block, b: Block, x: int)
    requires Aligned(a) && Aligned(b) && a.size <= b.size
    requires Covers(a, x) && Covers(b, x)
    ensures b.low <= a.low && End(a) <= End(b)
  {
    var p, q := Pow2(a.size), Pow2(b.size);
    Pow2Monotone(a.size, b.size);
    ModDivides(b.low, p, q);
    SumMod(b.low, q, p);
    if a.low < b.low { MultiplesApart(a.low, b.low, p); }
    MultiplesApart(a.low, End(b), p);
  }
}
