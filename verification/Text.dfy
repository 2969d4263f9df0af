/** Decimal numbers and separators inside formatted identifiers. */
module Text {

  function Digit(d: nat): char
    requires d < 10
  {
    '0' + d as char
  }

  /** `%d` of a natural number. */
  function Dec(n: nat): string {
    if n < 10 then [Digit(n)] else Dec(n / 10) + [Digit(n % 10)]
  }

  function Undec(s: string): int {
    if s == "" then 0 else 10 * Undec(s[..|s| - 1]) + (s[|s| - 1] as int - '0' as int)
  }

  lemma {:induction false} DecRoundTrip(n: nat)
    ensures Undec(Dec(n)) == n
    decreases n
  {
    if n >= 10 {
      DecRoundTrip(n / 10);
      assert Dec(n)[..|Dec(n)| - 1] == Dec(n / 10);
    } else {
      assert Dec(n)[..0] == "";
    }
  }

  predicate Free(s: string, c: char) { forall i :: 0 <= i < |s| ==> s[i] != c }

  lemma {:induction false} DecHasDigits(n: nat)
    ensures forall i :: 0 <= i < |Dec(n)| ==> '0' <= Dec(n)[i] <= '9'
    decreases n
  {
    if n >= 10 { DecHasDigits(n / 10); }
  }

  /** Text splits in one way at the first separator. */
  lemma SplitUnique(a1: string, b1: string, a2: string, b2: string, c: char)
    requires Free(a1, c) && Free(a2, c) && a1 + [c] + b1 == a2 + [c] + b2
    ensures a1 == a2 && b1 == b2
  {
    var x := a1 + [c] + b1;
    assert x[|a1|] == c && x[|a2|] == c;
    assert forall i :: 0 <= i < |a1| ==> x[i] == a1[i];
    assert forall i :: 0 <= i < |a2| ==> x[i] == a2[i];
    assert |a1| == |a2|;
    assert a1 == x[..|a1|] && a2 == x[..|a2|];
    assert b1 == x[|a1| + 1..] && b2 == x[|a2| + 1..];
  }
}
