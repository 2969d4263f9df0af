/** Routing marks: which 32-bit marks a tunnel's selector matches, and when allocations cannot alias. */
module Allocations {

  const PRIORITY_MIN := 31000
  const PRIORITY_MAX := 31999

  datatype Allocation = Allocation(name: string, mark: bv32, mask: bv32, table: int, priority: int)

  /** How the kernel reads a mark/mask selector. */
  predicate Selects(mark: bv32, mask: bv32, packet: bv32) { packet & mask == mark }

  datatype Verdict =
    | Accepted | NameMissing | MarkZero | MaskMismatch | TableReserved | PriorityOutside
    | TableTaken | PriorityTaken | SelectorsOverlap

  predicate ReservedTable(table: int) { table <= 0 || table == 253 || table == 254 || table == 255 }

  /** What one allocation must satisfy on its own. */
  ghost predicate Sound(a: Allocation) {
    && a.name != ""
    && a.mark != 0 && Selects(a.mark, a.mask, a.mark)
    && a.table > 0 && a.table !in {253, 254, 255}
    && PRIORITY_MIN <= a.priority <= PRIORITY_MAX
  }

  /** Two selectors share no mark at all. */
  ghost predicate NeverAlias(am: bv32, ak: bv32, bm: bv32, bk: bv32) {
    forall m: bv32 :: !(Selects(am, ak, m) && Selects(bm, bk, m))
  }

  ghost predicate Apart(a: Allocation, b: Allocation) {
    a.table != b.table && a.priority != b.priority && NeverAlias(a.mark, a.mask, b.mark, b.mask)
  }

  ghost predicate Valid(allocations: seq<Allocation>) {
    && (forall i :: 0 <= i < |allocations| ==> Sound(allocations[i]))
    && (forall i, j :: 0 <= j < i < |allocations| ==> Apart(allocations[i], allocations[j]))
  }

  /** The test the validation makes: the marks agree on the bits both masks look at. */
  predicate MasksAgree(am: bv32, ak: bv32, bm: bv32, bk: bv32) {
    am & (ak & bk) == bm & (ak & bk)
  }

  lemma SharedMarkAgrees(am: bv32, ak: bv32, bm: bv32, bk: bv32, m: bv32)
    requires m & ak == am && m & bk == bm
    ensures am & (ak & bk) == bm & (ak & bk)
  {
    assert am & (ak & bk) == m & (ak & bk);
    assert bm & (ak & bk) == m & (ak & bk);
  }

  lemma JointMark(am: bv32, ak: bv32, bm: bv32, bk: bv32)
    requires am & ak == am && bm & bk == bm && am & (ak & bk) == bm & (ak & bk)
    ensures (am | bm) & ak == am && (am | bm) & bk == bm
  {}

  lemma AgreeingMasksAlias(am: bv32, ak: bv32, bm: bv32, bk: bv32)
    requires am & ak == am && bm & bk == bm && am & (ak & bk) == bm & (ak & bk)
    ensures !NeverAlias(am, ak, bm, bk)
  {
    JointMark(am, ak, bm, bk);
    assert Selects(am, ak, am | bm) && Selects(bm, bk, am | bm);
  }

  lemma AliasesAgree(am: bv32, ak: bv32, bm: bv32, bk: bv32, m: bv32)
    requires Selects(am, ak, m) && Selects(bm, bk, m)
    ensures MasksAgree(am, ak, bm, bk)
  {
    SharedMarkAgrees(am, ak, bm, bk, m);
  }

  /** The pairwise mask test refuses exactly the pairs that some 32-bit mark satisfies together. */
  lemma MaskTestExact(am: bv32, ak: bv32, bm: bv32, bk: bv32)
    requires Selects(am, ak, am) && Selects(bm, bk, bm)
    ensures MasksAgree(am, ak, bm, bk) <==> !NeverAlias(am, ak, bm, bk)
  {
    if MasksAgree(am, ak, bm, bk) { AgreeingMasksAlias(am, ak, bm, bk); }
    forall m: bv32 | Selects(am, ak, m) && Selects(bm, bk, m) ensures MasksAgree(am, ak, bm, bk) {
      AliasesAgree(am, ak, bm, bk, m);
    }
  }

  lemma ZeroMask(mark: bv32)
    ensures Selects(mark, 0, mark) ==> mark == 0
  {}

  method CheckOne(a: Allocation) returns (v: Verdict)
    ensures v.Accepted? <==> Sound(a)
    ensures v.NameMissing? ==> a.name == ""
    ensures v.MarkZero? ==> a.mark == 0
    ensures v.MaskMismatch? ==> !Selects(a.mark, a.mask, a.mark)
    ensures v.TableReserved? ==> a.table <= 0 || a.table in {253, 254, 255}
    ensures v.PriorityOutside? ==> !(PRIORITY_MIN <= a.priority <= PRIORITY_MAX)
    ensures !v.TableTaken? && !v.PriorityTaken? && !v.SelectorsOverlap?
  {
    if a.name == "" { return NameMissing; }
    if a.mark == 0 { return MarkZero; }
    ZeroMask(a.mark);
    if a.mask == 0 || !Selects(a.mark, a.mask, a.mark) { return MaskMismatch; }
    if ReservedTable(a.table) { return TableReserved; }
    if a.priority < PRIORITY_MIN || a.priority > PRIORITY_MAX { return PriorityOutside; }
    return Accepted;
  }

  method CheckPair(a: Allocation, b: Allocation) returns (v: Verdict)
    requires Sound(a) && Sound(b)
    ensures v.Accepted? <==> Apart(a, b)
    ensures v.TableTaken? ==> a.table == b.table
    ensures v.PriorityTaken? ==> a.priority == b.priority
    ensures v.SelectorsOverlap? ==> !NeverAlias(a.mark, a.mask, b.mark, b.mask)
    ensures v in {Accepted, TableTaken, PriorityTaken, SelectorsOverlap}
  {
    if a.table == b.table { return TableTaken; }
    if a.priority == b.priority { return PriorityTaken; }
    MaskTestExact(a.mark, a.mask, b.mark, b.mask);
    if MasksAgree(a.mark, a.mask, b.mark, b.mask) { return SelectorsOverlap; }
    return Accepted;
  }

  method ValidateAllocations(allocations: seq<Allocation>) returns (v: Verdict)
    ensures v.Accepted? <==> Valid(allocations)
  {
    for i := 0 to |allocations|
      invariant forall q :: 0 <= q < i ==> Sound(allocations[q])
      invariant forall q, p :: 0 <= p < q < i ==> Apart(allocations[q], allocations[p])
    {
      var a := allocations[i];
      v := CheckOne(a);
      if !v.Accepted? { return; }
      for j := 0 to i
        invariant forall q :: 0 <= q < j ==> Apart(a, allocations[q])
      {
        v := CheckPair(a, allocations[j]);
        if !v.Accepted? { return; }
      }
    }
    return Accepted;
  }

  /** Among accepted allocations every 32-bit mark selects at most one. */
  lemma MarkSelectsAtMostOne(allocations: seq<Allocation>, i: nat, j: nat, m: bv32)
    requires Valid(allocations) && i < |allocations| && j < |allocations|
    requires Selects(allocations[i].mark, allocations[i].mask, m) &&
      Selects(allocations[j].mark, allocations[j].mask, m)
    ensures i == j
  {
    assert i < j ==> Apart(allocations[j], allocations[i]);
    assert j < i ==> Apart(allocations[i], allocations[j]);
  }
}
