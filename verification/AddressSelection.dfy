/** Choosing the order in which resolved addresses are dialed. */
module AddressSelection {
  import opened NetAddr
  import opened Ordering

  datatype Strategy = IPv4First | IPv6First | Interleave

  // ---- rotation ----

  function Reversed<T>(s: seq<T>): (r: seq<T>) { seq(|s|, i requires 0 <= i < |s| => s[|s| - 1 - i]) }

  /** `s` started at position `k` modulo its length. */
  function RotatedLeft<T>(s: seq<T>, k: nat): (r: seq<T>)
    ensures |r| == |s|
  {
    if |s| == 0 then s else s[k % |s|..] + s[..k % |s|]
  }

  /** `s` with its part from `lo` to `hi` reversed. */
  ghost function Flipped<T>(s: seq<T>, lo: nat, hi: nat): seq<T>
    requires lo <= hi <= |s|
  {
    s[..lo] + Reversed(s[lo..hi]) + s[hi..]
  }

  lemma MirrorIsReversed<T>(was: seq<T>, now: seq<T>, lo: nat, hi: nat)
    requires lo <= hi <= |was| == |now|
    requires forall i :: 0 <= i < lo ==> now[i] == was[i]
    requires forall i :: hi <= i < |was| ==> now[i] == was[i]
    requires forall i :: lo <= i < hi ==> now[i] == was[lo + hi - 1 - i]
    ensures now == Flipped(was, lo, hi)
  {
    var target := Flipped(was, lo, hi);
    forall i | 0 <= i < |was| ensures now[i] == target[i] {
      if lo <= i < hi { assert Reversed(was[lo..hi])[i - lo] == was[lo..hi][hi - lo - 1 - (i - lo)]; }
    }
  }

  /** Reverses `a[lo..hi]` in place and leaves the rest alone. */
  method ReverseRange<T>(a: array<T>, lo: nat, hi: nat)
    requires lo <= hi <= a.Length
    modifies a
    ensures a[..] == Flipped(old(a[..]), lo, hi)
  {
    ghost var was := a[..];
    var left, right := lo, hi - 1;
    while left < right
      invariant lo <= left <= hi && left + right == lo + hi - 1 && left <= right + 2
      invariant forall i :: 0 <= i < lo ==> a[i] == was[i]
      invariant forall i :: hi <= i < a.Length ==> a[i] == was[i]
      invariant forall i :: left <= i <= right ==> a[i] == was[i]
      invariant forall i :: lo <= i < left ==> a[i] == was[lo + hi - 1 - i]
      invariant forall i :: right < i < hi && lo <= i ==> a[i] == was[lo + hi - 1 - i]
      decreases right - left
    {
      a[left], a[right] := a[right], a[left];
      left, right := left + 1, right - 1;
    }
    MirrorIsReversed(was, a[..], lo, hi);
  }

  lemma ReverseHead<T>(x: seq<T>, y: seq<T>)
    ensures Flipped(x + y, 0, |x|) == Reversed(x) + y
  {
    assert (x + y)[0..|x|] == x && (x + y)[|x|..] == y && (x + y)[..0] == [];
  }

  lemma ReverseTail<T>(x: seq<T>, y: seq<T>)
    ensures Flipped(x + y, |x|, |x + y|) == x + Reversed(y)
  {
    assert (x + y)[..|x|] == x && (x + y)[|x|..|x + y|] == y && (x + y)[|x + y|..] == [];
  }

  lemma ReverseWhole<T>(s: seq<T>)
    ensures Flipped(s, 0, |s|) == Reversed(s)
  {
    assert s[0..|s|] == s && s[..0] == [] && s[|s|..] == [];
  }

  /** Reversing both parts and then the whole exchanges the parts. */
  lemma ReverseTwice<T>(x: seq<T>, y: seq<T>)
    ensures Reversed(Reversed(x) + Reversed(y)) == y + x
  {}

  /** The three reversals of a rotation. */
  method RotateBy<T>(a: array<T>, start: nat)
    requires start <= a.Length
    modifies a
    ensures a[..] == old(a[..])[start..] + old(a[..])[..start]
  {
    ghost var x, y := a[..start], a[start..];
    assert a[..] == x + y;
    ReverseRange(a, 0, start);
    ReverseHead(x, y);
    ReverseRange(a, start, a.Length);
    ReverseTail(Reversed(x), y);
    ReverseRange(a, 0, a.Length);
    ReverseWhole(Reversed(x) + Reversed(y));
    ReverseTwice(x, y);
  }

  /** In-place rotation by three reversals is left rotation by the sequence number modulo the length. */
  method Rotate<T>(a: array<T>, sequence: nat)
    modifies a
    ensures a[..] == RotatedLeft(old(a[..]), sequence)
  {
    if a.Length < 2 {
      assert a.Length == 1 ==> sequence % a.Length == 0;
      assert a[..] == RotatedLeft(a[..], sequence);
      return;
    }
    var start := sequence % a.Length;
    RotateBy(a, start);
  }

  const WRAP: nat := 0x1_0000_0000_0000_0000

  /** The `d`-th sequence number after `base` of a 64-bit counter. */
  function SequenceAt(base: nat, d: nat): nat { (base + d) % WRAP }

  // ---- merging the families ----

  /** Alternates, starting with `first`; the longer list supplies the rest. */
  function Alternate<T>(first: seq<T>, second: seq<T>): (r: seq<T>)
    ensures |r| == |first| + |second|
    decreases |first| + |second|
  {
    if first == [] then second
    else if second == [] then first
    else [first[0], second[0]] + Alternate(first[1..], second[1..])
  }

  /** Until either list runs out the result alternates strictly, so the first `n` positions hold equally many
      of each to within one, each list's elements in its own order. */
  lemma {:induction false} AlternateBalanced<T>(first: seq<T>, second: seq<T>, i: nat)
    requires i < 2 * |first| && i < 2 * |second|
    ensures Alternate(first, second)[i] == if i % 2 == 0 then first[i / 2] else second[i / 2]
    decreases |first|
  {
    if i >= 2 {
      AlternateBalanced(first[1..], second[1..], i - 2);
      assert Alternate(first, second)[i] == Alternate(first[1..], second[1..])[i - 2];
      assert (i - 2) / 2 == i / 2 - 1 && (i - 2) % 2 == i % 2;
    }
  }

  /** After the shorter list the rest of the longer one follows in order. */
  lemma {:induction false} AlternateTail<T>(first: seq<T>, second: seq<T>)
    ensures var m := if |first| <= |second| then |first| else |second|;
      Alternate(first, second)[2 * m..] == if |first| > m then first[m..] else second[m..]
    decreases |first|
  {
    if first != [] && second != [] {
      AlternateTail(first[1..], second[1..]);
      var m := if |first| <= |second| then |first| else |second|;
      assert Alternate(first, second)[2 * m..] == Alternate(first[1..], second[1..])[2 * (m - 1)..];
    }
  }

  /** One pass moves the heads of both lists that have one. */
  lemma AlternateStep<T>(first: seq<T>, second: seq<T>, done: seq<T>) returns (moved: seq<T>)
    requires first != [] || second != []
    ensures var f, s := if first == [] then 0 else 1, if second == [] then 0 else 1;
      && moved == first[..f] + second[..s]
      && done + moved + Alternate(first[f..], second[s..]) == done + Alternate(first, second)
  {
    var f, s := if first == [] then 0 else 1, if second == [] then 0 else 1;
    moved := first[..f] + second[..s];
    assert Alternate(first, second) == moved + Alternate(first[f..], second[s..]);
  }

  /** The loop that takes one address from each family in turn. */
  method InterleaveLoop<T>(v6First: seq<T>, v4Second: seq<T>) returns (ordered: seq<T>)
    ensures ordered == Alternate(v6First, v4Second)
  {
    var first, second := v6First, v4Second;
    ordered := [];
    while |first| > 0 || |second| > 0
      invariant ordered + Alternate(first, second) == Alternate(v6First, v4Second)
      decreases |first| + |second|
    {
      ghost var done := ordered;
      ghost var left := AlternateStep(first, second, done);
      if |first| > 0 {
        ordered := ordered + [first[0]];
        first := first[1..];
      }
      if |second| > 0 {
        ordered := ordered + [second[0]];
        second := second[1..];
      }
      assert ordered == done + left;
    }
  }

  /** The order of a call, before truncation. */
  function Merged(strategy: Strategy, v4: seq<Addr>, v6: seq<Addr>, sequence: nat): seq<Addr> {
    match strategy
    case IPv6First => v6 + v4
    case Interleave => if sequence % 2 == 1 then Alternate(v4, v6) else Alternate(v6, v4)
    case IPv4First => v4 + v6
  }

  /** The addresses of one family (IPv4 when `v4`), in order. */
  function Only(s: seq<Addr>, v4: bool): seq<Addr> {
    if s == [] then []
    else
      var front, a := Only(s[..|s| - 1], v4), s[|s| - 1];
      if a.V4? == v4 then front + [a] else front
  }

  function Truncated(s: seq<Addr>, n: int): seq<Addr> { if |s| > n >= 0 then s[..n] else s }

  /** The specification of one selection: distinct allowed addresses, each family rotated, merged, truncated. */
  function Selection(strategy: Strategy, maxAttempts: int, input: seq<Addr>, allowed: Addr -> bool,
                     sequence: nat): seq<Addr>
  {
    if maxAttempts <= 0 then []
    else
      var kept := Distil(input, allowed);
      var v4, v6 := RotatedLeft(Only(kept, true), sequence), RotatedLeft(Only(kept, false), sequence);
      Truncated(Merged(strategy, v4, v6, sequence), maxAttempts)
  }

  class RotatingSelector {
    const strategy: Strategy
    const maxAttempts: int
    var cursor: nat

    constructor (strategy: Strategy, maxAttempts: int)
      ensures this.strategy == strategy && this.maxAttempts == maxAttempts && cursor == 0
    {
      this.strategy, this.maxAttempts, cursor := strategy, maxAttempts, 0;
    }

    /** Splits the usable, allowed, not yet seen addresses by family. */
    method Split(input: seq<Addr>, allowed: Addr -> bool) returns (v4: seq<Addr>, v6: seq<Addr>)
      ensures v4 == Only(Distil(input, allowed), true) && v6 == Only(Distil(input, allowed), false)
    {
      v4, v6 := [], [];
      var seen: set<Addr> := {};
      for i := 0 to |input|
        invariant v4 == Only(Distil(input[..i], allowed), true) && v6 == Only(Distil(input[..i], allowed), false)
        invariant forall a :: a in seen <==> a in Distil(input[..i], allowed)
      {
        assert input[..i + 1][..i] == input[..i];
        var addr := Unmap(input[i]);
        if Usable(input[i]) && allowed(addr) && addr !in seen {
          ghost var kept := Distil(input[..i], allowed);
          assert Distil(input[..i + 1], allowed) == kept + [addr];
          assert (kept + [addr])[..|kept|] == kept;
          seen := seen + {addr};
          if addr.V4? { v4 := v4 + [addr]; } else { v6 := v6 + [addr]; }
        }
      }
      assert input[..|input|] == input;
    }

    method RotateSeq(s: seq<Addr>, sequence: nat) returns (r: seq<Addr>)
      ensures r == RotatedLeft(s, sequence)
    {
      var a := new Addr[|s|](i requires 0 <= i < |s| => s[i]);
      assert a[..] == s;
      Rotate(a, sequence);
      r := a[..];
    }

    /** One selection; the cursor advances by one call, modulo 2^64. */
    method Select(input: seq<Addr>, allowed: Addr -> bool) returns (ordered: seq<Addr>)
      requires cursor < WRAP
      modifies this
      ensures ordered == Selection(strategy, maxAttempts, input, allowed, old(cursor))
      ensures Strategic(strategy, ordered, Distil(input, allowed), old(cursor))
      ensures cursor == if maxAttempts <= 0 then old(cursor) else SequenceAt(old(cursor), 1)
    {
      if maxAttempts <= 0 {
        SelectionStrategic(strategy, maxAttempts, input, allowed, cursor);
        return [];
      }
      var v4, v6 := Split(input, allowed);
      var sequence := cursor;
      cursor := (cursor + 1) % WRAP;
      v4 := RotateSeq(v4, sequence);
      v6 := RotateSeq(v6, sequence);
      match strategy {
        case IPv6First => ordered := v6 + v4;
        case Interleave =>
          if sequence % 2 == 1 {
            ordered := InterleaveLoop(v4, v6);
          } else {
            ordered := InterleaveLoop(v6, v4);
          }
        case IPv4First => ordered := v4 + v6;
      }
      if |ordered| > maxAttempts { ordered := ordered[..maxAttempts]; }
      SelectionStrategic(strategy, maxAttempts, input, allowed, sequence);
    }
  }

  // ---- what a selection guarantees ----

  lemma {:induction false} FamiliesPartition(s: seq<Addr>)
    ensures multiset(Only(s, true)) + multiset(Only(s, false)) == multiset(s)
    decreases |s|
  {
    if s != [] {
      FamiliesPartition(s[..|s| - 1]);
      assert s == s[..|s| - 1] + [s[|s| - 1]];
    }
  }

  predicate AllOf(s: seq<Addr>, v4: bool) { forall i :: 0 <= i < |s| ==> s[i].V4? == v4 }

  lemma {:induction false} OnlyIsPure(s: seq<Addr>, v4: bool)
    ensures AllOf(Only(s, v4), v4)
    decreases |s|
  {
    if s != [] { OnlyIsPure(s[..|s| - 1], v4); }
  }

  lemma {:induction false} OnlyConcat(s: seq<Addr>, t: seq<Addr>, v4: bool)
    ensures Only(s + t, v4) == Only(s, v4) + Only(t, v4)
    decreases |t|
  {
    if t == [] {
      assert s + t == s;
    } else {
      OnlyConcat(s, t[..|t| - 1], v4);
      assert (s + t)[..|s + t| - 1] == s + t[..|t| - 1];
    }
  }

  lemma {:induction false} OnlyOfPure(s: seq<Addr>, v4: bool)
    requires AllOf(s, v4)
    ensures Only(s, v4) == s && Only(s, !v4) == []
    decreases |s|
  {
    if s != [] {
      OnlyOfPure(s[..|s| - 1], v4);
      assert s == s[..|s| - 1] + [s[|s| - 1]];
    }
  }

  /** What a family's list looks like after the other family was merged in: unchanged. */
  ghost predicate Keeps(merged: seq<Addr>, mine: seq<Addr>, theirs: seq<Addr>, v4: bool) {
    Only(merged, v4) == mine && Only(merged, !v4) == theirs
  }

  lemma KeepsConcat(mine: seq<Addr>, theirs: seq<Addr>, v4: bool)
    requires AllOf(mine, v4) && AllOf(theirs, !v4)
    ensures Keeps(mine + theirs, mine, theirs, v4)
  {
    OnlyOfPure(mine, v4);
    OnlyOfPure(theirs, !v4);
    OnlyConcat(mine, theirs, v4);
    OnlyConcat(mine, theirs, !v4);
  }

  lemma PairFirst(x: Addr, y: Addr, v4: bool)
    requires x.V4? == v4 && y.V4? == !v4
    ensures Keeps([x, y], [x], [y], v4)
  {
    assert [x, y] == [x] + [y];
    KeepsConcat([x], [y], v4);
  }

  lemma {:induction false} KeepsAlternate(first: seq<Addr>, second: seq<Addr>, v4: bool)
    requires AllOf(first, v4) && AllOf(second, !v4)
    ensures Keeps(Alternate(first, second), first, second, v4)
    decreases |first|
  {
    if first == [] || second == [] {
      if first != [] { OnlyOfPure(first, v4); } else { OnlyOfPure(second, !v4); }
    } else {
      var rest := Alternate(first[1..], second[1..]);
      KeepsAlternate(first[1..], second[1..], v4);
      PairFirst(first[0], second[0], v4);
      OnlyConcat([first[0], second[0]], rest, v4);
      OnlyConcat([first[0], second[0]], rest, !v4);
      assert first == [first[0]] + first[1..] && second == [second[0]] + second[1..];
    }
  }

  lemma RotationPure(s: seq<Addr>, k: nat, v4: bool)
    requires AllOf(s, v4)
    ensures AllOf(RotatedLeft(s, k), v4)
  {}

  /** Every strategy keeps each family's rotated order. */
  lemma MergedKeepsOrder(strategy: Strategy, v4: seq<Addr>, v6: seq<Addr>, sequence: nat)
    requires AllOf(v4, true) && AllOf(v6, false)
    ensures Keeps(Merged(strategy, v4, v6, sequence), v4, v6, true)
  {
    match strategy
    case IPv6First => KeepsConcat(v6, v4, false);
    case IPv4First => KeepsConcat(v4, v6, true);
    case Interleave =>
      if sequence % 2 == 1 { KeepsAlternate(v4, v6, true); } else { KeepsAlternate(v6, v4, false); }
  }

  // ---- which family comes where ----

  /** The addresses of one family come first, and the other family's only once all of those are in. */
  ghost predicate LeadsFamily(r: seq<Addr>, kept: seq<Addr>, v4: bool) {
    && (forall i, j :: 0 <= i < |r| && 0 <= j < |r| && r[i].V4? == v4 && r[j].V4? != v4 ==> i < j)
    && (forall j, a :: 0 <= j < |r| && r[j].V4? != v4 && a in kept && a.V4? == v4 ==> a in r)
  }

  /** While both families last they take turns, IPv6 first in even calls and IPv4 first in odd ones. */
  ghost predicate TakesTurns(r: seq<Addr>, kept: seq<Addr>, sequence: nat) {
    forall i :: 0 <= i < |r| && i < 2 * |Only(kept, true)| && i < 2 * |Only(kept, false)| ==>
      (r[i].V4? <==> (sequence + i) % 2 == 1)
  }

  /** What each strategy promises about the selection `r` of the `kept` addresses. */
  ghost predicate Strategic(strategy: Strategy, r: seq<Addr>, kept: seq<Addr>, sequence: nat) {
    match strategy
    case IPv4First => LeadsFamily(r, kept, true)
    case IPv6First => LeadsFamily(r, kept, false)
    case Interleave => TakesTurns(r, kept, sequence)
  }

  lemma {:induction false} OnlyMembers(s: seq<Addr>, v4: bool, a: Addr)
    ensures a in Only(s, v4) <==> a in s && a.V4? == v4
    decreases |s|
  {
    if s != [] {
      OnlyMembers(s[..|s| - 1], v4, a);
      assert s == s[..|s| - 1] + [s[|s| - 1]];
    }
  }

  lemma ConcatLeads(first: seq<Addr>, second: seq<Addr>, kept: seq<Addr>, n: int, v4: bool)
    requires AllOf(first, v4) && AllOf(second, !v4)
    requires forall a :: a in kept && a.V4? == v4 ==> a in first
    ensures LeadsFamily(Truncated(first + second, n), kept, v4)
  {
    var r := Truncated(first + second, n);
    forall j, a | 0 <= j < |r| && r[j].V4? != v4 && a in kept && a.V4? == v4 ensures a in r {
      var i :| 0 <= i < |first| && first[i] == a;
      assert r[i] == a;
    }
  }

  lemma AlternateTakesTurns(first: seq<Addr>, second: seq<Addr>, n: int, v4: bool, i: nat)
    requires AllOf(first, v4) && AllOf(second, !v4)
    requires i < |Truncated(Alternate(first, second), n)| && i < 2 * |first| && i < 2 * |second|
    ensures Truncated(Alternate(first, second), n)[i].V4? == ((i % 2 == 0) == v4)
  {
    AlternateBalanced(first, second, i);
  }

  lemma InterleaveTakesTurns(v4: seq<Addr>, v6: seq<Addr>, n: int, kept: seq<Addr>, sequence: nat)
    requires AllOf(v4, true) && AllOf(v6, false) && |v4| == |Only(kept, true)| && |v6| == |Only(kept, false)|
    ensures TakesTurns(Truncated(Merged(Interleave, v4, v6, sequence), n), kept, sequence)
  {
    var r := Truncated(Merged(Interleave, v4, v6, sequence), n);
    forall i | 0 <= i < |r| && i < 2 * |v4| && i < 2 * |v6| ensures r[i].V4? <==> (sequence + i) % 2 == 1 {
      if sequence % 2 == 1 {
        AlternateTakesTurns(v4, v6, n, true, i);
      } else {
        AlternateTakesTurns(v6, v4, n, false, i);
      }
    }
  }

  lemma RotatedFamily(kept: seq<Addr>, sequence: nat, v4: bool)
    ensures AllOf(RotatedLeft(Only(kept, v4), sequence), v4)
    ensures forall a :: a in kept && a.V4? == v4 ==> a in RotatedLeft(Only(kept, v4), sequence)
  {
    OnlyIsPure(kept, v4);
    RotationPure(Only(kept, v4), sequence, v4);
    RotationPermutes(Only(kept, v4), sequence);
    SameMembers(Only(kept, v4), RotatedLeft(Only(kept, v4), sequence));
    forall a | a in kept && a.V4? == v4 ensures a in Only(kept, v4) { OnlyMembers(kept, v4, a); }
  }

  /** Every selection keeps the promise of its strategy. */
  lemma SelectionStrategic(strategy: Strategy, maxAttempts: int, input: seq<Addr>, allowed: Addr -> bool, sequence: nat)
    ensures Strategic(strategy, Selection(strategy, maxAttempts, input, allowed, sequence), Distil(input, allowed),
      sequence)
  {
    if maxAttempts > 0 {
      var kept := Distil(input, allowed);
      var v4, v6 := RotatedLeft(Only(kept, true), sequence), RotatedLeft(Only(kept, false), sequence);
      RotatedFamily(kept, sequence, true);
      RotatedFamily(kept, sequence, false);
      match strategy
      case IPv4First => ConcatLeads(v4, v6, kept, maxAttempts, true);
      case IPv6First => ConcatLeads(v6, v4, kept, maxAttempts, false);
      case Interleave => InterleaveTakesTurns(v4, v6, maxAttempts, kept, sequence);
    }
  }

  lemma RotationPermutes<T>(s: seq<T>, k: nat)
    ensures multiset(RotatedLeft(s, k)) == multiset(s)
  {
    if |s| > 0 { assert s == s[..k % |s|] + s[k % |s|..]; }
  }

  lemma HeadApart<T>(s: seq<T>)
    requires s != []
    ensures multiset(s) == multiset{s[0]} + multiset(s[1..])
  {
    assert s == [s[0]] + s[1..];
  }

  lemma PairApart<T>(x: T, y: T, rest: seq<T>)
    ensures multiset([x, y] + rest) == multiset{x} + multiset{y} + multiset(rest)
  {
    assert multiset([x, y]) == multiset{x} + multiset{y};
  }

  lemma {:induction false} AlternatePermutes<T>(first: seq<T>, second: seq<T>)
    ensures multiset(Alternate(first, second)) == multiset(first) + multiset(second)
    decreases |first|
  {
    if first != [] && second != [] {
      AlternatePermutes(first[1..], second[1..]);
      HeadApart(first);
      HeadApart(second);
      PairApart(first[0], second[0], Alternate(first[1..], second[1..]));
    }
  }

  lemma MergedPermutes(strategy: Strategy, kept: seq<Addr>, sequence: nat)
    ensures var v4, v6 := RotatedLeft(Only(kept, true), sequence), RotatedLeft(Only(kept, false), sequence);
      multiset(Merged(strategy, v4, v6, sequence)) == multiset(kept)
  {
    var v4, v6 := RotatedLeft(Only(kept, true), sequence), RotatedLeft(Only(kept, false), sequence);
    FamiliesPartition(kept);
    RotationPermutes(Only(kept, true), sequence);
    RotationPermutes(Only(kept, false), sequence);
    AlternatePermutes(v4, v6);
    AlternatePermutes(v6, v4);
  }

  lemma TruncatedKeeps(all: seq<Addr>, n: int, v4: bool)
    ensures Only(Truncated(all, n), v4) <= Only(all, v4)
  {
    var r := Truncated(all, n);
    assert all == r + all[|r|..];
    OnlyConcat(r, all[|r|..], v4);
  }

  /** A selection never repeats an address, offers only usable addresses that were allowed, is no longer
      than the cap, offers everything when the cap allows, and keeps each family in its rotated order. */
  lemma SelectionSound(strategy: Strategy, maxAttempts: int, input: seq<Addr>, allowed: Addr -> bool, sequence: nat)
    ensures var r, kept := Selection(strategy, maxAttempts, input, allowed, sequence), Distil(input, allowed);
      && |r| == (if maxAttempts <= 0 then 0 else if |kept| > maxAttempts then maxAttempts else |kept|)
      && (forall i, j :: 0 <= i < j < |r| ==> r[i] != r[j])
      && (forall i :: 0 <= i < |r| ==> r[i] in kept)
      && Only(r, true) <= RotatedLeft(Only(kept, true), sequence)
      && Only(r, false) <= RotatedLeft(Only(kept, false), sequence)
  {
    var kept := Distil(input, allowed);
    var v4, v6 := RotatedLeft(Only(kept, true), sequence), RotatedLeft(Only(kept, false), sequence);
    OnlyIsPure(kept, true);
    OnlyIsPure(kept, false);
    RotationPure(Only(kept, true), sequence, true);
    RotationPure(Only(kept, false), sequence, false);
    MergedPermutes(strategy, kept, sequence);
    var all := Merged(strategy, v4, v6, sequence);
    MergedKeepsOrder(strategy, v4, v6, sequence);
    TruncatedKeeps(all, maxAttempts, true);
    TruncatedKeeps(all, maxAttempts, false);
    if maxAttempts > 0 { MembersOf(kept, all, maxAttempts); }
  }

  lemma MembersOf(kept: seq<Addr>, all: seq<Addr>, n: int)
    requires n > 0 && multiset(all) == multiset(kept) && forall i, j :: 0 <= i < j < |kept| ==> kept[i] != kept[j]
    ensures var r := Truncated(all, n);
      && |r| == (if |kept| > n then n else |kept|)
      && (forall i, j :: 0 <= i < j < |r| ==> r[i] != r[j])
      && (forall i :: 0 <= i < |r| ==> r[i] in kept)
  {
    DistinctPermutation(kept, all);
    SameMembers(kept, all);
    assert |multiset(all)| == |all| && |multiset(kept)| == |kept|;
    assert forall i :: 0 <= i < |all| ==> all[i] in all;
  }
}
