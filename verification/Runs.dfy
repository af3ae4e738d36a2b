/** Contiguous runs of free units, the specification shared by the block and page allocators. */
module Runs {

  function Range(lo: nat, n: nat): (r: set<nat>)
    ensures forall i: nat :: i in r <==> lo <= i < lo + n
  {
    if n == 0 then {} else Range(lo, n - 1) + {lo + n - 1}
  }

  ghost predicate FreeRun(used: set<nat>, s: nat, n: nat) {
    forall i: nat :: s <= i < s + n ==> i !in used
  }

  /** `s` is the lowest multiple of `align` at which `n` free units fit below `total`. */
  ghost predicate LowestRun(used: set<nat>, total: nat, n: nat, align: nat, s: nat)
    requires align > 0
  {
    && s % align == 0 && s + n <= total && FreeRun(used, s, n)
    && forall s': nat :: s' < s && s' % align == 0 ==> !FreeRun(used, s', n)
  }

  ghost predicate NoRun(used: set<nat>, total: nat, n: nat, align: nat)
    requires align > 0
  {
    forall s: nat :: s % align == 0 && s + n <= total ==> !FreeRun(used, s, n)
  }

  lemma {:induction false} RangeSize(lo: nat, n: nat)
    ensures |Range(lo, n)| == n
  {
    if n > 0 {
      RangeSize(lo, n - 1);
    }
  }

  lemma {:induction false} SubsetSize(a: set<nat>, b: set<nat>)
    requires a <= b
    ensures |a| <= |b|
  {
    assert b == a + (b - a);
  }

  /** A free run needs that many free units: when fewer are left, no run exists. */
  lemma NoRunWithoutSpace(used: set<nat>, total: nat, n: nat, align: nat)
    requires align > 0 && used <= Range(0, total) && total - |used| < n
    ensures NoRun(used, total, n, align)
  {
    forall s: nat | s % align == 0 && s + n <= total
      ensures !FreeRun(used, s, n)
    {
      if FreeRun(used, s, n) {
        RangeSize(s, n);
        RangeSize(0, total);
        assert used !! Range(s, n);
        assert |used + Range(s, n)| == |used| + n;
        SubsetSize(used + Range(s, n), Range(0, total));
      }
    }
  }

  /** Taking a free run moves the count of used units by the run's length, and stays in range. */
  lemma TakeRun(used: set<nat>, total: nat, s: nat, n: nat)
    requires FreeRun(used, s, n) && s + n <= total && used <= Range(0, total)
    ensures |used + Range(s, n)| == |used| + n
    ensures used + Range(s, n) <= Range(0, total)
    ensures |used| + n <= total
  {
    RangeSize(s, n);
    RangeSize(0, total);
    assert used !! Range(s, n);
    SubsetSize(used + Range(s, n), Range(0, total));
  }

  /** A lowest run exists exactly when some run does. */
  lemma LowestRunIsARun(used: set<nat>, total: nat, n: nat, align: nat, s: nat)
    requires align > 0 && LowestRun(used, total, n, align, s)
    ensures !NoRun(used, total, n, align)
  {
    hide FreeRun;
  }
}
