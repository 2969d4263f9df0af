/** Aggregation of route prefixes: collect ranges, sort, merge in place, split into blocks. */
module RouteSource {
  import opened Options
  import opened Ipv4
  import opened Ordering
  import opened Aggregation

  /** One configured entry after text parsing. The parser has already cleared the host bits.
      `Net4in6` is an IPv6 prefix of length 96 or more inside ::ffff:0:0/96. */
  datatype Entry =
    | Unparsable
    | Net6
    | Net4(ip: nat, ones: nat)
    | Net4in6(ip: nat, ones: nat)

  ghost predicate Parsed(e: Entry) {
    match e
    case Unparsable => true
    case Net6 => true
    case Net4(ip, ones) => ones <= 32 && Aligned(Block(ip, 32 - ones))
    case Net4in6(ip, ones) => 96 <= ones <= 128 && Aligned(Block(ip, 128 - ones))
  }

  ghost function Members(b: Block): Addresses {
    iset x | Covers(b, x)
  }

  /** The IPv4 addresses the entry's text stands for. */
  ghost function Meaning(e: Entry): Addresses {
    match e
    case Unparsable => iset{}
    case Net6 => iset{}
    case Net4(ip, ones) => if ones <= 32 then Members(Block(ip, 32 - ones)) else iset{}
    case Net4in6(ip, ones) => if ones <= 128 then Members(Block(ip, 128 - ones)) else iset{}
  }

  datatype Interval = Interval(low: nat, high: nat)

  ghost predicate InRange(r: Interval, x: int) { r.low <= x <= r.high }

  ghost predicate Proper(r: Interval) { r.low <= r.high <= MAX }

  /** The mask is shifted right by `ones`; every host bit of `ip` is zero, so joining the two is addition. */
  function CidrRange(e: Entry): (r: Option<Interval>) {
    match e
    case Unparsable => None
    case Net6 => None
    case Net4(ip, ones) => Some(if ones == 0 then Interval(ip, MAX) else Interval(ip, ip + MAX / Pow2(ones)))
    case Net4in6(ip, ones) => Some(if ones == 0 then Interval(ip, MAX) else Interval(ip, ip + MAX / Pow2(ones)))
  }

  ghost function RangeAddresses(e: Entry): Addresses {
    match CidrRange(e)
    case None => iset{}
    case Some(r) => iset x | InRange(r, x)
  }

  lemma {:induction false} Pow2Product(i: nat, j: nat)
    ensures Pow2(i) * Pow2(j) == Pow2(i + j)
    decreases i
  {
    if i > 0 {
      Pow2Product(i - 1, j);
      DoubleProduct(Pow2(i - 1), Pow2(j));
    }
  }

  lemma QuotientIs(n: int, d: int, q: int, r: int)
    requires d > 0 && n == d * q + r && 0 <= r < d
    ensures n / d == q
  {
    var e := n / d;
    Distribute(d, e, q);
    assert d * (e - q) == r - n % d;
    ZeroMultiple(d, e - q);
  }

  lemma ShiftedMask(ones: nat)
    ensures ones <= 32 ==> MAX / Pow2(ones) == Pow2(32 - ones) - 1
    ensures ones >= 32 ==> MAX / Pow2(ones) == 0
  {
    Pow2Space();
    if ones <= 32 {
      Pow2Product(ones, 32 - ones);
      Distribute(Pow2(ones), Pow2(32 - ones), 1);
      QuotientIs(MAX, Pow2(ones), Pow2(32 - ones) - 1, Pow2(ones) - 1);
    } else {
      Pow2Monotone(32, ones);
      QuotientIs(MAX, Pow2(ones), 0, MAX);
    }
  }

  /** A parsed entry's range is a proper 32-bit interval. */
  lemma CidrRangeProper(e: Entry)
    requires Parsed(e) && CidrRange(e).Some?
    ensures Proper(CidrRange(e).value)
  {
    Pow2Space();
    ShiftedMask(e.ones);
  }

  /** The range is what the text means exactly when no IPv4-mapped prefix shorter than /128 is read, and IPv6
      entries are ignored exactly when none is IPv4-mapped; a mapped prefix is read as its first address. */
  lemma CidrRangeExact(e: Entry)
    requires Parsed(e)
    ensures RangeAddresses(e) == Meaning(e) <==> !(e.Net4in6? && e.ones < 128)
    ensures (RangeAddresses(e) == if e.Net4? then Meaning(e) else iset{}) <==> !e.Net4in6?
    ensures e.Net4in6? ==> RangeAddresses(e) == iset{e.ip}
  {
    if e.Net4? {
      PlainRange(e);
    } else if e.Net4in6? {
      MappedRange(e);
      assert e.ip in RangeAddresses(e);
      if e.ones < 128 {
        Pow2Monotone(1, 128 - e.ones);
        assert Pow2(1) == 2;
        assert e.ip + 1 in Meaning(e) && e.ip + 1 !in RangeAddresses(e);
      } else {
        assert Pow2(0) == 1;
        assert RangeAddresses(e) == Meaning(e);
      }
    }
  }

  lemma PlainRange(e: Entry)
    requires Parsed(e) && e.Net4?
    ensures RangeAddresses(e) == Meaning(e)
  {
    Pow2Space();
    ShiftedMask(e.ones);
  }

  lemma MappedRange(e: Entry)
    requires Parsed(e) && e.Net4in6?
    ensures RangeAddresses(e) == iset{e.ip}
  {
    ShiftedMask(e.ones);
  }

  /** ::ffff:10.0.0.0/104 means the addresses of 10.0.0.0/8 and is read as 10.0.0.0/32. */
  lemma MappedPrefixMisread()
    ensures var e := Net4in6(0x0a00_0000, 104);
      Parsed(e) && 0x0aff_ffff in Meaning(e) && RangeAddresses(e) == iset{0x0a00_0000}
  {
    assert Pow2(8) == 256 && Pow2(16) == 65536 && Pow2(24) == 0x100_0000;
    ShiftedMask(104);
  }

  ghost predicate Denoted(x: int, entries: seq<Entry>) {
    exists i :: 0 <= i < |entries| && x in RangeAddresses(entries[i])
  }

  /** The address set the entries are read as. */
  ghost function ReadSet(entries: seq<Entry>): Addresses {
    iset x | Denoted(x, entries)
  }

  // ---- splitting one range ----

  /** `b` is as large as alignment and the end of the range allow. */
  ghost predicate Greedy(b: Block, high: nat) {
    && Aligned(b) && End(b) <= high + 1
    && (forall s {:trigger Pow2(s)} :: b.size < s <= 32 && b.low % Pow2(s) == 0 ==> b.low + Pow2(s) > high + 1)
  }

  /** `blocks` partition `low .. high` left to right, each greedy. */
  ghost predicate Tiles(blocks: seq<Block>, low: nat, high: nat) {
    && |blocks| > 0
    && blocks[0].low == low
    && End(blocks[|blocks| - 1]) == high + 1
    && (forall i :: 0 <= i < |blocks| - 1 ==> End(blocks[i]) == blocks[i + 1].low)
    && (forall i :: 0 <= i < |blocks| ==> Greedy(blocks[i], high))
  }

  /** The number of trailing zero bits of a nonzero value. */
  function TrailingZeros(x: nat): (k: nat)
    requires x > 0
  {
    if x % 2 != 0 then 0 else 1 + TrailingZeros(x / 2)
  }

  ghost function OddPart(x: nat): (r: nat)
    requires x > 0
    ensures r % 2 == 1
  {
    if x % 2 != 0 then x else OddPart(x / 2)
  }

  lemma {:induction false} TrailingZerosFactor(x: nat)
    requires x > 0
    ensures x == Pow2(TrailingZeros(x)) * OddPart(x)
    decreases x
  {
    if x % 2 == 0 {
      TrailingZerosFactor(x / 2);
      DoubleProduct(Pow2(TrailingZeros(x / 2)), OddPart(x / 2));
    }
  }

  lemma {:induction false} OddFactorBounds(k: nat, odd: nat, s: nat, q: nat)
    requires odd % 2 == 1 && Pow2(k) * odd == Pow2(s) * q
    ensures s <= k
    decreases k
  {
    if s > 0 {
      DoubleProduct(Pow2(s - 1), q);
      if k > 0 {
        DoubleProduct(Pow2(k - 1), odd);
        OddFactorBounds(k - 1, odd, s - 1, q);
      }
    }
  }

  lemma AlignedUpTo(x: nat, s: nat)
    requires x > 0 && s <= TrailingZeros(x)
    ensures x % Pow2(s) == 0
  {
    var p := Pow2(TrailingZeros(x));
    TrailingZerosFactor(x);
    MultipleMod(OddPart(x), p);
    Pow2Monotone(s, TrailingZeros(x));
    ModDivides(x, Pow2(s), p);
  }

  lemma ExactQuotient(x: nat, p: nat)
    requires p > 0 && x % p == 0
    ensures x == p * (x / p)
  {}

  lemma NotAlignedBeyond(x: nat, s: nat)
    requires x > 0 && s > TrailingZeros(x)
    ensures x % Pow2(s) != 0
  {
    var p := Pow2(s);
    if x % p == 0 {
      TrailingZerosFactor(x);
      ExactQuotient(x, p);
      OddFactorBounds(TrailingZeros(x), OddPart(x), s, x / p);
      assert false;
    }
  }

  lemma TrailingZerosSmall(x: nat)
    requires 0 < x < SPACE
    ensures TrailingZeros(x) < 32
  {
    var k := TrailingZeros(x);
    TrailingZerosFactor(x);
    Pow2Space();
    Pow2Monotone(if k <= 32 then k else 32, if k <= 32 then 32 else k);
    ProductAtLeast(Pow2(k), OddPart(x));
  }

  lemma LargestAlignment(low: nat) returns (k: nat)
    requires low < SPACE
    ensures k == if low == 0 then 32 else TrailingZeros(low)
    ensures k <= 32 && low % Pow2(k) == 0
    ensures forall s {:trigger Pow2(s)} :: k < s <= 32 ==> low % Pow2(s) != 0
  {
    k := 32;
    if low > 0 {
      k := TrailingZeros(low);
      TrailingZerosSmall(low);
      AlignedUpTo(low, k);
      forall s {:trigger Pow2(s)} | k < s <= 32 ensures low % Pow2(s) != 0 {
        NotAlignedBeyond(low, s);
      }
    }
  }

  /** The blocks emitted so far reach from `low` to `next`. */
  ghost predicate TilesUpTo(blocks: seq<Block>, low: nat, next: nat, high: nat) {
    && (|blocks| == 0 ==> next == low)
    && (|blocks| > 0 ==> blocks[0].low == low && End(blocks[|blocks| - 1]) == next)
    && (forall i :: 0 <= i < |blocks| - 1 ==> End(blocks[i]) == blocks[i + 1].low)
    && (forall i :: 0 <= i < |blocks| ==> Greedy(blocks[i], high))
  }

  /** The largest block that starts at `low`, is aligned and stays inside the range. */
  method LargestBlock(low: nat, high: nat) returns (b: Block)
    requires low <= high <= MAX
    ensures b.low == low && Greedy(b, high)
  {
    ghost var k := LargestAlignment(low);
    var size: nat := if low == 0 then 32 else TrailingZeros(low);
    while size > 0 && Pow2(size) > high - low + 1
      invariant size <= 32 && low % Pow2(size) == 0
      invariant forall s {:trigger Pow2(s)} :: size < s <= 32 && low % Pow2(s) == 0 ==> low + Pow2(s) > high + 1
    {
      Pow2Monotone(size - 1, size);
      ModDivides(low, Pow2(size - 1), Pow2(size));
      size := size - 1;
    }
    b := Block(low, size);
  }

  lemma TilesGrow(blocks: seq<Block>, start: nat, low: nat, high: nat, b: Block)
    requires TilesUpTo(blocks, start, low, high) && b.low == low && Greedy(b, high)
    ensures TilesUpTo(blocks + [b], start, End(b), high)
    ensures End(b) > high ==> Tiles(blocks + [b], start, high)
  {
    var more := blocks + [b];
    assert more[|blocks|] == b && forall i :: 0 <= i < |blocks| ==> more[i] == blocks[i];
  }

  method RangeCidrs(start: nat, high: nat) returns (result: seq<Block>)
    requires start <= high <= MAX
    ensures Tiles(result, start, high)
  {
    var low := start;
    result := [];
    while true
      invariant start <= low <= high
      invariant TilesUpTo(result, start, low, high)
      decreases high - low
    {
      var b := LargestBlock(low, high);
      TilesGrow(result, start, low, high, b);
      result := result + [b];
      var next := low + Pow2(b.size);
      if next > high { return; }
      low := next;
    }
  }

  // ---- one range: greedy tiles are maximal ----

  lemma {:induction false} TilesInOrder(blocks: seq<Block>, low: nat, high: nat, i: nat, j: nat)
    requires Tiles(blocks, low, high) && i < j < |blocks|
    ensures End(blocks[i]) <= blocks[j].low
    decreases j
  {
    if i + 1 < j { TilesInOrder(blocks, low, high, i, j - 1); }
  }

  lemma TilesDisjoint(blocks: seq<Block>, low: nat, high: nat, i: nat, j: nat, x: int)
    requires Tiles(blocks, low, high) && i < |blocks| && j < |blocks|
    requires Covers(blocks[i], x) && Covers(blocks[j], x)
    ensures i == j
  {
    if i < j { TilesInOrder(blocks, low, high, i, j); }
    if j < i { TilesInOrder(blocks, low, high, j, i); }
  }

  lemma TileAt(blocks: seq<Block>, low: nat, high: nat, x: int) returns (i: nat)
    requires Tiles(blocks, low, high) && low <= x <= high
    ensures i < |blocks| && Covers(blocks[i], x)
  {
    i := 0;
    while End(blocks[i]) <= x
      invariant i < |blocks| && blocks[i].low <= x
      decreases |blocks| - i
    {
      i := i + 1;
    }
  }

  lemma TileInside(blocks: seq<Block>, low: nat, high: nat, i: nat)
    requires Tiles(blocks, low, high) && i < |blocks|
    ensures low <= blocks[i].low && End(blocks[i]) <= high + 1
  {
    if i > 0 { TilesInOrder(blocks, low, high, 0, i); }
  }

  /** `low .. high` lies in `s` and cannot be extended at either end. */
  ghost predicate Isolated(r: Interval, s: Addresses) {
    && (forall x :: InRange(r, x) ==> x in s)
    && r.low - 1 !in s && r.high + 1 !in s
  }

  /** A prefix inside `s` that meets an isolated range stays within it. */
  lemma PrefixStaysInside(c: Block, r: Interval, s: Addresses, x: int)
    requires Within(c, s) && Isolated(r, s) && Covers(c, x) && InRange(r, x)
    ensures r.low <= c.low && End(c) <= r.high + 1
  {
    assert Covers(c, r.low - 1) ==> r.low - 1 in s;
    assert Covers(c, r.high + 1) ==> r.high + 1 in s;
  }

  lemma TileIsMaximal(blocks: seq<Block>, r: Interval, s: Addresses, i: nat)
    requires Tiles(blocks, r.low, r.high) && Isolated(r, s) && i < |blocks|
    ensures MaximalIn(blocks[i], s)
  {
    var b := blocks[i];
    TileInside(blocks, r.low, r.high, i);
    forall c: Block | Aligned(c) && Within(c, s) && Covers(c, b.low) ensures c.size <= b.size {
      PrefixStaysInside(c, r, s, b.low);
      var j := TileAt(blocks, r.low, r.high, c.low);
      if blocks[j].size <= c.size {
        Laminar(blocks[j], c, c.low);
        assert blocks[j].size == c.size;
      } else {
        Laminar(c, blocks[j], c.low);
      }
      TilesDisjoint(blocks, r.low, r.high, i, j, b.low);
    }
  }

  lemma MaximalIsTile(b: Block, blocks: seq<Block>, r: Interval, s: Addresses)
    requires Tiles(blocks, r.low, r.high) && Isolated(r, s) && MaximalIn(b, s) && InRange(r, b.low)
    ensures b in blocks
  {
    var j := TileAt(blocks, r.low, r.high, b.low);
    TileIsMaximal(blocks, r, s, j);
    MaximalDisjoint(b, blocks[j], b.low, s);
  }

  lemma OddMultiple(x: nat, p: nat)
    requires p > 0 && x % p == 0
    ensures x % (2 * p) == 0 || (x >= p && (x - p) % (2 * p) == 0)
  {
    var q := x / p;
    var h := q / 2;
    assert x == p * q;
    Distribute(p, 2 * h, 1);
    if q == 2 * h {
      assert x == p * (2 * h) == (2 * p) * h;
      MultipleMod(h, 2 * p);
    } else {
      assert q == 2 * h + 1;
      assert x - p == p * (2 * h) == (2 * p) * h;
      MultipleMod(h, 2 * p);
    }
  }

  /** The prefix one bit shorter than `b` that contains it. */
  lemma ParentPrefix(b: Block) returns (c: Block)
    requires Aligned(b) && b.size < 32
    ensures Aligned(c) && c.size == b.size + 1 && Covers(c, b.low)
    ensures c.low == b.low || c.low == b.low - Pow2(b.size)
  {
    var p := Pow2(b.size);
    OddMultiple(b.low, p);
    c := Block(if b.low % (2 * p) == 0 then b.low else b.low - p, b.size + 1);
    assert Pow2(c.size) == 2 * p;
    Pow2Space();
    Pow2Monotone(c.size, 32);
    MultiplesApart(c.low, SPACE, 2 * p);
  }

  lemma RangeIsolated(r: Interval) returns (s: Addresses)
    ensures s == (iset x | InRange(r, x)) && Isolated(r, s)
  {
    s := iset x | InRange(r, x);
  }

  /** A prefix that starts behind another is not the whole space. */
  lemma SmallerThanAll(a: Block, b: Block)
    requires Aligned(b) && a.low < b.low
    ensures b.size < 32
  {
    Pow2Space();
  }

  /** The parent of a prefix with an equal neighbour on each side inside a range lies inside the range. */
  lemma ParentInside(a: Block, b: Block, c: Block, parent: Block, r: Interval, s: Addresses)
    requires a.size == b.size == c.size && parent.size == b.size + 1
    requires r.low <= a.low && End(a) <= b.low && End(b) <= c.low && End(c) <= r.high + 1
    requires parent.low == b.low || parent.low == b.low - Pow2(b.size)
    requires s == iset x | InRange(r, x)
    ensures Within(parent, s)
  {
    assert Pow2(parent.size) == 2 * Pow2(b.size);
  }

  /** A middle block of three equal ones has its parent inside the range, so it was not maximal:
      each range emits at most two blocks of any one size. */
  lemma AtMostTwoOfASize(blocks: seq<Block>, low: nat, high: nat, i: nat, j: nat, k: nat)
    requires Tiles(blocks, low, high) && i < j < k < |blocks|
    ensures !(blocks[i].size == blocks[j].size == blocks[k].size)
  {
    var a, b, c := blocks[i], blocks[j], blocks[k];
    if a.size == b.size == c.size {
      TilesInOrder(blocks, low, high, i, j);
      TilesInOrder(blocks, low, high, j, k);
      TileInside(blocks, low, high, i);
      TileInside(blocks, low, high, k);
      SmallerThanAll(a, b);
      var parent := ParentPrefix(b);
      var s := RangeIsolated(Interval(low, high));
      ParentInside(a, b, c, parent, Interval(low, high), s);
      TileIsMaximal(blocks, Interval(low, high), s, j);
      assert false;
    }
  }

  // ---- merging ranges in place ----

  ghost predicate InSome(x: int, ranges: seq<Interval>) {
    exists i :: 0 <= i < |ranges| && InRange(ranges[i], x)
  }

  ghost function Span(ranges: seq<Interval>): Addresses {
    iset x | InSome(x, ranges)
  }

  ghost predicate AllProper(ranges: seq<Interval>) {
    forall i :: 0 <= i < |ranges| ==> Proper(ranges[i])
  }

  /** Consecutive ranges leave at least one address between them. */
  ghost predicate Separated(ranges: seq<Interval>) {
    AllProper(ranges) && forall i, j :: 0 <= i < j < |ranges| ==> ranges[i].high + 1 < ranges[j].low
  }

  predicate LowLess(a: Interval, b: Interval) { a.low < b.low }

  lemma SpanAppend(ranges: seq<Interval>, r: Interval)
    ensures Span(ranges + [r]) == Span(ranges) + iset x | InRange(r, x)
  {
    var more := ranges + [r];
    forall x ensures InSome(x, more) <==> InSome(x, ranges) || InRange(r, x) {
      if InRange(r, x) { assert InRange(more[|ranges|], x); }
      if i :| 0 <= i < |ranges| && InRange(ranges[i], x) { assert InRange(more[i], x); }
    }
  }

  lemma SpanSameMembers(s: seq<Interval>, t: seq<Interval>)
    requires multiset(s) == multiset(t)
    ensures Span(s) == Span(t)
  {
    SameMembers(s, t);
    forall x ensures InSome(x, s) <==> InSome(x, t) {
      if i :| 0 <= i < |s| && InRange(s[i], x) { assert s[i] in t; }
      if i :| 0 <= i < |t| && InRange(t[i], x) { assert t[i] in s; }
    }
  }

  function Grown(last: Interval, candidate: Interval): Interval {
    Interval(last.low, if candidate.high > last.high then candidate.high else last.high)
  }

  /** Growing the last range adds exactly the addresses of the candidate it absorbed. */
  lemma SpanAbsorb(ranges: seq<Interval>, last: Interval, candidate: Interval)
    requires last.low <= candidate.low <= last.high + 1 && last.low <= last.high && candidate.low <= candidate.high
    ensures Span(ranges + [Grown(last, candidate)]) == Span(ranges + [last]) + iset x | InRange(candidate, x)
  {
    SpanAppend(ranges, Grown(last, candidate));
    SpanAppend(ranges, last);
  }

  /** Growing the last range, or adding one that starts beyond its neighbour, keeps the ranges apart. */
  lemma SeparatedGrows(ranges: seq<Interval>, last: Interval, candidate: Interval)
    requires Separated(ranges + [last]) && Proper(candidate) && last.low <= candidate.low
    ensures Separated(ranges + [Grown(last, candidate)])
    ensures last.high + 1 < candidate.low ==> Separated(ranges + [last] + [candidate])
  {
    var all := ranges + [last];
    assert all[|ranges|] == last;
    assert forall i :: 0 <= i < |ranges| ==> all[i] == ranges[i];
    assert forall i :: 0 <= i < |ranges| ==> Proper(all[i]) && all[i].high + 1 < all[|ranges|].low;
  }

  predicate Touches(last: Interval, candidate: Interval) {
    candidate.low <= last.high || (last.high != MAX && candidate.low == last.high + 1)
  }

  /** The merged ranges after one more: it grows the last range if it touches it, else it is appended. */
  function Joined(done: seq<Interval>, candidate: Interval): seq<Interval>
    requires |done| > 0
  {
    var front, last := done[..|done| - 1], done[|done| - 1];
    if Touches(last, candidate) then front + [Grown(last, candidate)] else done + [candidate]
  }

  lemma JoinedKeeps(done: seq<Interval>, candidate: Interval)
    requires |done| > 0 && Separated(done) && Proper(candidate) && done[|done| - 1].low <= candidate.low
    ensures |Joined(done, candidate)| > 0 && Separated(Joined(done, candidate))
    ensures var j := Joined(done, candidate); j[|j| - 1].low <= candidate.low
  {
    var front, last := done[..|done| - 1], done[|done| - 1];
    assert done == front + [last];
    SeparatedGrows(front, last, candidate);
  }

  lemma JoinedSpan(done: seq<Interval>, candidate: Interval)
    requires |done| > 0 && AllProper(done) && Proper(candidate) && done[|done| - 1].low <= candidate.low
    ensures Span(Joined(done, candidate)) == Span(done) + iset x | InRange(candidate, x)
  {
    var front, last := done[..|done| - 1], done[|done| - 1];
    if Touches(last, candidate) {
      assert done == front + [last];
      SpanAbsorb(front, last, candidate);
    } else {
      SpanAppend(done, candidate);
    }
  }

  /** `done` is the merge of the first `r` ranges of `was`. */
  ghost predicate MergedUpTo(done: seq<Interval>, was: seq<Interval>, r: nat)
    requires 0 < r <= |was|
  {
    |done| > 0 && Separated(done) && done[|done| - 1].low <= was[r - 1].low && Span(done) == Span(was[..r])
  }

  lemma MergeStep(done: seq<Interval>, was: seq<Interval>, r: nat)
    requires 0 < r < |was| && AllProper(was) && Ordered(was, LowLess) && MergedUpTo(done, was, r)
    ensures MergedUpTo(Joined(done, was[r]), was, r + 1)
  {
    assert !LowLess(was[r], was[r - 1]);
    assert was[..r + 1] == was[..r] + [was[r]];
    SpanAppend(was[..r], was[r]);
    JoinedKeeps(done, was[r]);
    JoinedSpan(done, was[r]);
  }

  /** One step of the merge inside the array: it writes no position after the candidate's. */
  method MergeNext(a: array<Interval>, n: nat, r: nat) returns (m: nat)
    requires 0 < n <= r < a.Length
    modifies a
    ensures 0 < m <= r + 1 && a[..m] == Joined(old(a[..n]), old(a[r]))
    ensures forall q :: r < q < a.Length ==> a[q] == old(a[q])
  {
    var candidate, last := a[r], a[n - 1];
    ghost var front := a[..n - 1];
    assert a[..n] == front + [last];
    if candidate.low <= last.high || (last.high != MAX && candidate.low == last.high + 1) {
      if candidate.high > last.high {
        a[n - 1] := Interval(last.low, candidate.high);
      }
      m := n;
      assert a[..m] == front + [a[n - 1]];
    } else {
      a[n] := candidate;
      m := n + 1;
      assert a[..m] == front + [last] + [candidate];
    }
  }

  /** The prefix of `a` that survives is separated and covers what all of `a` covered. */
  method MergeInPlace(a: array<Interval>) returns (n: nat)
    requires a.Length > 0 && AllProper(a[..]) && Ordered(a[..], LowLess)
    modifies a
    ensures 0 < n <= a.Length && Separated(a[..n])
    ensures Span(a[..n]) == Span(old(a[..]))
  {
    ghost var was := a[..];
    n := 1;
    assert a[..1] == was[..1];
    for r := 1 to a.Length
      invariant 1 <= n <= r
      invariant forall q :: r <= q < a.Length ==> a[q] == was[q]    // nothing unread has been overwritten
      invariant MergedUpTo(a[..n], was, r)
    {
      MergeStep(a[..n], was, r);
      n := MergeNext(a, n, r);
    }
    assert was[..a.Length] == was;
  }

  // ---- the whole aggregation ----

  lemma SeparatedIsolated(ranges: seq<Interval>, i: nat)
    requires Separated(ranges) && i < |ranges|
    ensures Isolated(ranges[i], Span(ranges))
  {
    var r := ranges[i];
    forall x | InRange(r, x) ensures InSome(x, ranges) {}
    forall j | 0 <= j < |ranges|
      ensures !InRange(ranges[j], r.low - 1) && !InRange(ranges[j], r.high + 1)
    {
      assert Proper(ranges[j]) && Proper(r);
      assert j < i ==> ranges[j].high + 1 < ranges[i].low;
      assert i < j ==> ranges[i].high + 1 < ranges[j].low;
    }
  }

  predicate BlockLess(a: Block, b: Block) {
    a.low < b.low || (a.low == b.low && a.size < b.size)
  }

  /** `blocks` lists the maximal prefixes that start in the first `k` ranges, in address order. */
  ghost predicate Emitted(blocks: seq<Block>, ranges: seq<Interval>, k: nat, s: Addresses)
    requires k <= |ranges|
  {
    && Ascending(blocks, BlockLess)
    && (forall b :: b in blocks <==> MaximalIn(b, s) && InSome(b.low, ranges[..k]))
  }

  /** The tiles of a range are the maximal prefixes that start in it. */
  lemma TileMembership(b: Block, tiles: seq<Block>, ranges: seq<Interval>, k: nat)
    requires Separated(ranges) && k < |ranges| && Tiles(tiles, ranges[k].low, ranges[k].high)
    ensures b in tiles <==> MaximalIn(b, Span(ranges)) && InRange(ranges[k], b.low)
    ensures InSome(b.low, ranges[..k + 1]) <==> InSome(b.low, ranges[..k]) || InRange(ranges[k], b.low)
  {
    var s, r := Span(ranges), ranges[k];
    SeparatedIsolated(ranges, k);
    assert ranges[..k + 1] == ranges[..k] + [r];
    SpanAppend(ranges[..k], r);
    assert b.low in Span(ranges[..k + 1]) <==> b.low in Span(ranges[..k]) || InRange(r, b.low);
    if b in tiles {
      var i :| 0 <= i < |tiles| && tiles[i] == b;
      TileIsMaximal(tiles, r, s, i);
      TileInside(tiles, r.low, r.high, i);
    }
    if MaximalIn(b, s) && InRange(r, b.low) { MaximalIsTile(b, tiles, r, s); }
  }

  lemma EmitRange(blocks: seq<Block>, tiles: seq<Block>, ranges: seq<Interval>, k: nat)
    requires Separated(ranges) && k < |ranges|
    requires Emitted(blocks, ranges, k, Span(ranges))
    requires Tiles(tiles, ranges[k].low, ranges[k].high)
    ensures Emitted(blocks + tiles, ranges, k + 1, Span(ranges))
  {
    var s, more := Span(ranges), blocks + tiles;
    forall b ensures b in more <==> MaximalIn(b, s) && InSome(b.low, ranges[..k + 1]) {
      TileMembership(b, tiles, ranges, k);
      assert b in more <==> b in blocks || b in tiles;
      assert b in blocks <==> MaximalIn(b, s) && InSome(b.low, ranges[..k]);
    }
    forall i, j | 0 <= i < j < |more| ensures BlockLess(more[i], more[j]) {
      EmitOrder(blocks, tiles, ranges, k, i, j);
    }
  }

  lemma EmitOrder(blocks: seq<Block>, tiles: seq<Block>, ranges: seq<Interval>, k: nat, i: nat, j: nat)
    requires Separated(ranges) && k < |ranges| && Ascending(blocks, BlockLess)
    requires forall b :: b in blocks ==> InSome(b.low, ranges[..k])
    requires Tiles(tiles, ranges[k].low, ranges[k].high)
    requires i < j < |blocks| + |tiles|
    ensures BlockLess((blocks + tiles)[i], (blocks + tiles)[j])
  {
    var m := |blocks|;
    if i >= m {
      TilesInOrder(tiles, ranges[k].low, ranges[k].high, i - m, j - m);
    } else if j >= m {
      assert blocks[i] in blocks;
      var q :| 0 <= q < k && InRange(ranges[..k][q], blocks[i].low);
      assert ranges[q].high + 1 < ranges[k].low;
      TileInside(tiles, ranges[k].low, ranges[k].high, j - m);
    }
  }

  lemma EmittedAll(blocks: seq<Block>, ranges: seq<Interval>)
    requires Separated(ranges) && Emitted(blocks, ranges, |ranges|, Span(ranges))
    ensures ListsMaximal(blocks, Span(ranges))
  {
    assert ranges[..|ranges|] == ranges;
    forall b | MaximalIn(b, Span(ranges)) ensures b in blocks {
      assert Covers(b, b.low);
      assert b.low in Span(ranges);
    }
  }

  method SortRanges(ranges: seq<Interval>) returns (r: seq<Interval>)
    ensures multiset(r) == multiset(ranges) && |r| == |ranges| && Ordered(r, LowLess)
  {
    r := SortBy(ranges, LowLess);
    SortByOrdered(ranges, LowLess);
  }

  method CollectRanges(entries: seq<Entry>) returns (ranges: seq<Interval>)
    requires forall i :: 0 <= i < |entries| ==> Parsed(entries[i])
    ensures AllProper(ranges) && Span(ranges) == ReadSet(entries)
  {
    ranges := [];
    for i := 0 to |entries|
      invariant AllProper(ranges) && Span(ranges) == ReadSet(entries[..i])
    {
      var entry := CidrRange(entries[i]);
      ReadSetStep(entries, i);
      if entry.Some? {
        CidrRangeProper(entries[i]);
        SpanAppend(ranges, entry.value);
        ranges := ranges + [entry.value];
      }
    }
    assert entries[..|entries|] == entries;
  }

  lemma ReadSetStep(entries: seq<Entry>, i: nat)
    requires i < |entries|
    ensures ReadSet(entries[..i + 1]) == ReadSet(entries[..i]) + RangeAddresses(entries[i])
  {
    var fewer, more := entries[..i], entries[..i + 1];
    forall x ensures Denoted(x, more) <==> Denoted(x, fewer) || x in RangeAddresses(entries[i]) {
      if x in RangeAddresses(entries[i]) { assert x in RangeAddresses(more[i]); }
      if j :| 0 <= j < |fewer| && x in RangeAddresses(fewer[j]) { assert x in RangeAddresses(more[j]); }
      if j :| 0 <= j < |more| && x in RangeAddresses(more[j]) {
        if j < i { assert x in RangeAddresses(fewer[j]); }
      }
    }
  }

  /** The prefixes of `s` in address order, then sorted by their text. */
  ghost predicate IsAggregate(result: seq<Block>, s: Addresses, textLess: (Block, Block) -> bool) {
    exists ascending :: InAddressOrder(ascending, s) && result == SortBy(ascending, textLess)
  }

  ghost predicate InAddressOrder(blocks: seq<Block>, s: Addresses) {
    Ascending(blocks, BlockLess) && ListsMaximal(blocks, s)
  }

  /** The aggregation; `textLess` compares two prefixes by their rendered text. */
  method AggregateIPv4(entries: seq<Entry>, textLess: (Block, Block) -> bool) returns (result: seq<Block>)
    requires forall i :: 0 <= i < |entries| ==> Parsed(entries[i])
    ensures IsAggregate(result, ReadSet(entries), textLess)
    ensures StrictTotal(textLess) ==> Ascending(result, textLess)
  {
    var intervals := CollectRanges(entries);
    ghost var s := ReadSet(entries);
    result := [];
    if |intervals| == 0 {
      NothingMaximal(s);
      assert InAddressOrder([], s);
      assert SortBy([], textLess) == [];
      return;
    }
    var sorted := SortRanges(intervals);
    SpanSameMembers(sorted, intervals);
    SameMembers(sorted, intervals);
    var a := new Interval[|sorted|](i requires 0 <= i < |sorted| => sorted[i]);
    assert a[..] == sorted;
    forall i | 0 <= i < |sorted| ensures Proper(sorted[i]) { assert sorted[i] in intervals; }
    var n := MergeInPlace(a);
    ghost var merged := a[..n];
    for i := 0 to n
      invariant a[..n] == merged
      invariant Emitted(result, merged, i, s)
    {
      assert Proper(merged[i]);
      var tiles := RangeCidrs(a[i].low, a[i].high);
      EmitRange(result, tiles, merged, i);
      result := result + tiles;
    }
    EmittedAll(result, merged);
    assert InAddressOrder(result, s);
    if StrictTotal(textLess) { SortByAscending(result, textLess); }
    result := SortBy(result, textLess);
  }

  lemma NothingMaximal(s: Addresses)
    requires forall x :: x !in s
    ensures ListsMaximal([], s)
  {
    forall b ensures !MaximalIn(b, s) {
      assert Covers(b, b.low);
    }
  }

  // ---- what an aggregate is worth ----

  lemma ReadSetBounded(entries: seq<Entry>)
    requires forall i :: 0 <= i < |entries| ==> Parsed(entries[i])
    ensures forall x :: x in ReadSet(entries) ==> 0 <= x < SPACE
  {
    forall x | x in ReadSet(entries) ensures 0 <= x < SPACE {
      var i :| 0 <= i < |entries| && x in RangeAddresses(entries[i]);
      CidrRangeProper(entries[i]);
    }
  }

  lemma AggregateLists(result: seq<Block>, s: Addresses, textLess: (Block, Block) -> bool)
    requires IsAggregate(result, s, textLess)
    ensures ListsMaximal(result, s)
  {
    var ascending :| InAddressOrder(ascending, s) && result == SortBy(ascending, textLess);
    SameMembers(result, ascending);
    DistinctPermutation(ascending, result);
  }

  /** Exact and minimal: the result's prefixes are aligned, pairwise disjoint, cover exactly the set that
      was read, are precisely its maximal prefixes, and no prefix list denoting that set is shorter. */
  lemma AggregateExactAndMinimal(entries: seq<Entry>, result: seq<Block>, textLess: (Block, Block) -> bool,
                                 cover: seq<Block>)
    requires forall i :: 0 <= i < |entries| ==> Parsed(entries[i])
    requires IsAggregate(result, ReadSet(entries), textLess)
    ensures AllAligned(result) && Union(result) == ReadSet(entries)
    ensures forall i, j, x :: 0 <= i < j < |result| ==> !(Covers(result[i], x) && Covers(result[j], x))
    ensures forall b :: b in result <==> MaximalIn(b, ReadSet(entries))
    ensures AllAligned(cover) && Union(cover) == ReadSet(entries) ==> |result| <= |cover|
  {
    var s := ReadSet(entries);
    AggregateLists(result, s, textLess);
    ReadSetBounded(entries);
    MaximalCoverExactly(result, s);
    forall i | 0 <= i < |result| ensures MaximalIn(result[i], s) { assert result[i] in result; }
    forall i, j, x | 0 <= i < j < |result| ensures !(Covers(result[i], x) && Covers(result[j], x)) {
      if Covers(result[i], x) && Covers(result[j], x) {
        MaximalDisjoint(result[i], result[j], x, s);
        assert false;
      }
    }
    if AllAligned(cover) && Union(cover) == s { MaximalIsMinimal(result, cover, s); }
  }

  lemma BlockOrderUnique(a: seq<Block>, b: seq<Block>, s: Addresses)
    requires InAddressOrder(a, s) && InAddressOrder(b, s)
    ensures a == b
  {
    AscendingUnique(a, b, BlockLess);
  }

  lemma SameSetSameList(r1: seq<Block>, s1: Addresses, r2: seq<Block>, s2: Addresses, textLess: (Block, Block) -> bool)
    requires IsAggregate(r1, s1, textLess) && IsAggregate(r2, s2, textLess)
    requires forall x :: x in s1 ==> 0 <= x < SPACE
    requires forall x :: x in s2 ==> 0 <= x < SPACE
    ensures r1 == r2 <==> s1 == s2
  {
    AggregateLists(r1, s1, textLess);
    AggregateLists(r2, s2, textLess);
    MaximalCoverExactly(r1, s1);
    MaximalCoverExactly(r2, s2);
    if s1 == s2 {
      var a1 :| InAddressOrder(a1, s1) && r1 == SortBy(a1, textLess);
      var a2 :| InAddressOrder(a2, s2) && r2 == SortBy(a2, textLess);
      BlockOrderUnique(a1, a2, s1);
    }
  }

  /** Canonical: two aggregations print the same list exactly when they read the same address set, so the
      comparison with the last pushed list skips a push exactly when the set is unchanged. */
  lemma AggregateCanonical(e1: seq<Entry>, r1: seq<Block>, e2: seq<Entry>, r2: seq<Block>,
                           textLess: (Block, Block) -> bool)
    requires forall i :: 0 <= i < |e1| ==> Parsed(e1[i])
    requires forall i :: 0 <= i < |e2| ==> Parsed(e2[i])
    requires IsAggregate(r1, ReadSet(e1), textLess) && IsAggregate(r2, ReadSet(e2), textLess)
    ensures r1 == r2 <==> ReadSet(e1) == ReadSet(e2)
  {
    ReadSetBounded(e1);
    ReadSetBounded(e2);
    SameSetSameList(r1, ReadSet(e1), r2, ReadSet(e2), textLess);
  }

  /** The prefixes written back as entries. */
  function ToEntries(blocks: seq<Block>): seq<Entry> {
    seq(|blocks|, i requires 0 <= i < |blocks| =>
      Net4(blocks[i].low, if blocks[i].size <= 32 then 32 - blocks[i].size else 0))
  }

  lemma EntryOfBlock(b: Block)
    requires Aligned(b)
    ensures Parsed(Net4(b.low, 32 - b.size)) && RangeAddresses(Net4(b.low, 32 - b.size)) == Members(b)
  {
    CidrRangeExact(Net4(b.low, 32 - b.size));
  }

  /** Prefixes written back are read as the addresses they cover. */
  lemma ReadBack(blocks: seq<Block>)
    requires AllAligned(blocks)
    ensures forall i :: 0 <= i < |blocks| ==> Parsed(ToEntries(blocks)[i])
    ensures ReadSet(ToEntries(blocks)) == Union(blocks)
  {
    var back := ToEntries(blocks);
    forall i | 0 <= i < |blocks| ensures Parsed(back[i]) && RangeAddresses(back[i]) == Members(blocks[i]) {
      EntryOfBlock(blocks[i]);
    }
    forall x ensures x in ReadSet(back) <==> x in Union(blocks) {
      if i :| 0 <= i < |blocks| && Covers(blocks[i], x) { assert x in RangeAddresses(back[i]); }
      if i :| 0 <= i < |back| && x in RangeAddresses(back[i]) { assert Covers(blocks[i], x); }
    }
  }

  /** Idempotent: aggregating an aggregate gives it back. */
  lemma AggregateIdempotent(entries: seq<Entry>, result: seq<Block>, again: seq<Block>,
                            textLess: (Block, Block) -> bool)
    requires forall i :: 0 <= i < |entries| ==> Parsed(entries[i])
    requires IsAggregate(result, ReadSet(entries), textLess)
    requires IsAggregate(again, ReadSet(ToEntries(result)), textLess)
    ensures forall i :: 0 <= i < |result| ==> Parsed(ToEntries(result)[i])
    ensures again == result
  {
    var back := ToEntries(result);
    AggregateExactAndMinimal(entries, result, textLess, []);
    ReadBack(result);
    ReadSetBounded(entries);
    SameSetSameList(again, ReadSet(back), result, ReadSet(entries), textLess);
  }

  /** Reading is exact for lists that hold no IPv4-mapped prefix shorter than /128. */
  lemma ReadSetExact(entries: seq<Entry>, x: int)
    requires forall i :: 0 <= i < |entries| ==> Parsed(entries[i])
    requires forall i :: 0 <= i < |entries| ==> !(entries[i].Net4in6? && entries[i].ones < 128)
    ensures x in ReadSet(entries) <==> exists i :: 0 <= i < |entries| && x in Meaning(entries[i])
  {
    forall i | 0 <= i < |entries| ensures RangeAddresses(entries[i]) == Meaning(entries[i]) {
      CidrRangeExact(entries[i]);
    }
  }
}
