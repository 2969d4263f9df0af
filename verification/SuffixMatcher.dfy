/** Hostname suffix lookup, most specific suffix first. */
module SuffixMatcher {
  import opened Options

  /** A configured rule: a suffix and what it routes to. */
  datatype Rule<T> = Rule(suffix: string, value: T)

  /** `suffix` matches `host` at a label boundary: it is the host, or follows one of its dots. */
  predicate MatchesAt(host: string, suffix: string) {
    && 0 < |suffix| <= |host|
    && host[|host| - |suffix|..] == suffix
    && (|suffix| == |host| || host[|host| - |suffix| - 1] == '.')
  }

  /** A linear scan keeps the longest matching suffix seen so far, and the earlier rule on a tie. */
  function Better<T>(host: string, best: Option<Rule<T>>, r: Rule<T>): Option<Rule<T>> {
    if MatchesAt(host, r.suffix) && (best.None? || |r.suffix| > |best.value.suffix|) then Some(r) else best
  }

  function LinearScan<T>(rules: seq<Rule<T>>, host: string): Option<Rule<T>> {
    if rules == [] then None else Better(host, LinearScan(rules[..|rules| - 1], host), rules[|rules| - 1])
  }

  /** `found` is the first rule with the longest matching suffix. */
  ghost predicate IsBest<T>(rules: seq<Rule<T>>, host: string, found: Option<Rule<T>>) {
    match found
    case None => forall i :: 0 <= i < |rules| ==> !MatchesAt(host, rules[i].suffix)
    case Some(r) => exists k :: 0 <= k < |rules| && rules[k] == r && MatchesAt(host, r.suffix) && BestAt(rules, host, k)
  }

  ghost predicate BestAt<T>(rules: seq<Rule<T>>, host: string, k: nat)
    requires k < |rules|
  {
    forall i :: 0 <= i < |rules| && MatchesAt(host, rules[i].suffix) ==>
      |rules[i].suffix| < |rules[k].suffix| || (|rules[i].suffix| == |rules[k].suffix| && k <= i)
  }

  lemma {:induction false} LinearScanIsBest<T>(rules: seq<Rule<T>>, host: string)
    ensures IsBest(rules, host, LinearScan(rules, host))
    decreases |rules|
  {
    if rules != [] {
      var n := |rules| - 1;
      var front := rules[..n];
      LinearScanIsBest(front, host);
      assert forall i :: 0 <= i < n ==> front[i] == rules[i];
      var best := LinearScan(front, host);
      if LinearScan(rules, host) == best {
        if best.Some? {
          var k :| 0 <= k < |front| && front[k] == best.value && MatchesAt(host, best.value.suffix) &&
            BestAt(front, host, k);
          assert rules[k] == best.value && BestAt(rules, host, k);
        }
      } else {
        assert BestAt(rules, host, n) by {
          if best.Some? {
            var k :| 0 <= k < |front| && front[k] == best.value && MatchesAt(host, best.value.suffix) &&
              BestAt(front, host, k);
          }
        }
      }
    }
  }

  // ---- the table ----

  /** `values` holds the first rule of each suffix. */
  ghost predicate FirstWins<T>(values: map<string, T>, rules: seq<Rule<T>>) {
    && (forall s :: s in values ==>
          exists k :: 0 <= k < |rules| && FirstFor(rules, k) && rules[k] == Rule(s, values[s]))
    && (forall k :: 0 <= k < |rules| ==> rules[k].suffix in values)
  }

  ghost predicate FirstFor<T>(rules: seq<Rule<T>>, k: nat)
    requires k < |rules|
  {
    forall j :: 0 <= j < k ==> rules[j].suffix != rules[k].suffix
  }

  /** The suffix found for `host` in a table: the longest one at a label boundary. */
  ghost predicate Longest<T>(values: map<string, T>, host: string, found: Option<T>) {
    match found
    case None => forall s :: s in values ==> !MatchesAt(host, s)
    case Some(v) => exists s :: s in values && values[s] == v && LongestKey(values, host, s)
  }

  ghost predicate LongestKey<T>(values: map<string, T>, host: string, s: string) {
    MatchesAt(host, s) && forall t :: t in values && MatchesAt(host, t) ==> |t| <= |s|
  }

  function ScanValue<T>(rules: seq<Rule<T>>, host: string): Option<T> {
    match LinearScan(rules, host)
    case None => None
    case Some(r) => Some(r.value)
  }

  /** A matching suffix shorter than `host[offset..]` starts after the next dot. */
  lemma BoundaryAfterDot(host: string, s: string, offset: nat, dot: nat)
    requires MatchesAt(host, s) && offset <= dot <= |host| && |s| <= |host| - offset && s != host[offset..]
    requires forall i :: offset <= i < dot ==> host[i] != '.'
    ensures |host| - |s| > dot
  {
    var start := |host| - |s|;
    assert start != offset;
    assert host[start - 1] == '.';
  }

  lemma FirstWinsGrows<T>(values: map<string, T>, rules: seq<Rule<T>>, r: Rule<T>)
    requires FirstWins(values, rules)
    ensures FirstWins(if r.suffix in values then values else values[r.suffix := r.value], rules + [r])
  {
    var more, n := rules + [r], |rules|;
    var values' := if r.suffix in values then values else values[r.suffix := r.value];
    forall s | s in values' ensures exists k :: 0 <= k < |more| && FirstFor(more, k) && more[k] == Rule(s, values'[s]) {
      if s in values {
        var k :| 0 <= k < |rules| && FirstFor(rules, k) && rules[k] == Rule(s, values[s]);
        assert FirstFor(more, k) && more[k] == Rule(s, values'[s]);
      } else {
        assert FirstFor(more, n) by {
          forall j | 0 <= j < n ensures more[j].suffix != r.suffix { assert rules[j].suffix in values; }
        }
        assert more[n] == Rule(s, values'[s]);
      }
    }
  }

  lemma SameEnd(host: string, s: string, t: string)
    requires MatchesAt(host, s) && MatchesAt(host, t) && |s| == |t|
    ensures s == t
  {}

  /** The first rule of the longest matching suffix holds the table's value for it. */
  lemma BestIsLongest<T>(values: map<string, T>, rules: seq<Rule<T>>, host: string, k: nat, s: string)
    requires FirstWins(values, rules) && k < |rules| && MatchesAt(host, rules[k].suffix) && BestAt(rules, host, k)
    requires s in values && LongestKey(values, host, s)
    ensures rules[k] == Rule(s, values[s])
  {
    assert rules[k].suffix in values;
    var j :| 0 <= j < |rules| && FirstFor(rules, j) && rules[j] == Rule(s, values[s]);
    assert MatchesAt(host, rules[j].suffix);
    SameEnd(host, s, rules[k].suffix);
  }

  /** Looking a host up in the table gives what a linear scan of the rule list gives. */
  lemma LookupRefinesScan<T>(values: map<string, T>, rules: seq<Rule<T>>, host: string, found: Option<T>)
    requires FirstWins(values, rules) && Longest(values, host, found)
    ensures found == ScanValue(rules, host)
  {
    LinearScanIsBest(rules, host);
    match LinearScan(rules, host)
    case None =>
    case Some(r) =>
      var k :| 0 <= k < |rules| && rules[k] == r && MatchesAt(host, r.suffix) && BestAt(rules, host, k);
      assert r.suffix in values;
      var s :| s in values && values[s] == found.value && LongestKey(values, host, s);
      BestIsLongest(values, rules, host, k, s);
  }

  class Matcher<T> {
    var values: map<string, T>
    ghost var rules: seq<Rule<T>>

    ghost predicate Valid()
      reads this
    {
      FirstWins(values, rules)
    }

    constructor ()
      ensures Valid() && rules == []
    {
      values, rules := map[], [];
    }

    /** Adds a rule; an already configured suffix keeps its first value. */
    method AddFirst(suffix: string, value: T) returns (added: bool)
      requires Valid()
      modifies this
      ensures Valid() && rules == old(rules) + [Rule(suffix, value)]
      ensures added <==> suffix !in old(values)
      ensures values == if added then old(values)[suffix := value] else old(values)
    {
      FirstWinsGrows(values, rules, Rule(suffix, value));
      rules := rules + [Rule(suffix, value)];
      if suffix in values { return false; }
      values := values[suffix := value];
      return true;
    }

    /** The position of the next dot at or after `offset`, or the end. */
    method IndexDot(host: string, offset: nat) returns (dot: nat)
      requires offset <= |host|
      ensures offset <= dot <= |host|
      ensures forall i :: offset <= i < dot ==> host[i] != '.'
      ensures dot < |host| ==> host[dot] == '.'
    {
      dot := offset;
      while dot < |host| && host[dot] != '.'
        invariant offset <= dot <= |host|
        invariant forall i :: offset <= i < dot ==> host[i] != '.'
      {
        dot := dot + 1;
      }
    }

    /** Tries the host and then each parent domain; the offset grows strictly. The value found is the one a
        linear scan of all the rules added so far would keep. */
    method Lookup(host: string) returns (found: Option<T>)
      requires Valid()
      ensures Longest(values, host, found) && found == ScanValue(rules, host)
    {
      var offset := 0;
      while offset < |host|
        invariant 0 <= offset <= |host| && (offset == 0 || host[offset - 1] == '.')
        invariant forall s :: s in values && MatchesAt(host, s) ==> |s| <= |host| - offset
        decreases |host| - offset
      {
        if host[offset..] in values {
          assert LongestKey(values, host, host[offset..]);
          found := Some(values[host[offset..]]);
          LookupRefinesScan(values, rules, host, found);
          return;
        }
        var dot := IndexDot(host, offset);
        forall s | s in values && MatchesAt(host, s)
          ensures |s| <= |host| - (if dot < |host| then dot + 1 else |host|)
        {
          BoundaryAfterDot(host, s, offset, dot);
        }
        if dot == |host| { break; }
        offset := dot + 1;
      }
      found := None;
      LookupRefinesScan(values, rules, host, found);
    }
  }
}
