/** Circular buffers indexed by counters that only grow. */
module Rings {
  import opened Bits

  /** The slot of the `n`th entry. */
  function Slot(n: nat, size: nat): (r: nat)
    requires size > 0
    ensures r < size
  {
    n % size
  }

  lemma IsSlot(n: nat, size: nat)
    requires size > 0
    ensures n % size == Slot(n, size)
  {
  }

  lemma SlotsDiffer(a: nat, b: nat, size: nat)
    requires size > 0 && a < b < a + size
    ensures Slot(a, size) != Slot(b, size)
  {
    if a % size == b % size {
      var d := b / size - a / size;
      assert d * size == b - a by {
        assert b == (b / size) * size + b % size && a == (a / size) * size + a % size;
      }
      OnlyZeroMultipleBelow(d, size);
    }
  }

  /** From entry `base` on the ring holds `items`. */
  ghost predicate RingHolds<T>(ring: seq<T>, base: nat, items: seq<T>) {
    |ring| > 0 && forall i :: 0 <= i < |items| ==> ring[Slot(base + i, |ring|)] == items[i]
  }

  lemma RingPush<T>(ring: seq<T>, base: nat, items: seq<T>, x: T)
    requires RingHolds(ring, base, items) && |items| < |ring|
    ensures RingHolds(ring[Slot(base + |items|, |ring|) := x], base, items + [x])
  {
    hide Slot;
    var n := |items|;
    var ring' := ring[Slot(base + n, |ring|) := x];
    forall i | 0 <= i < |items + [x]|
      ensures ring'[Slot(base + i, |ring'|)] == (items + [x])[i]
    {
      if i < n {
        SlotsDiffer(base + i, base + n, |ring|);
      }
    }
  }

  lemma RingPop<T>(ring: seq<T>, base: nat, items: seq<T>)
    requires RingHolds(ring, base, items) && items != []
    ensures ring[Slot(base, |ring|)] == items[0] && RingHolds(ring, base + 1, items[1..])
  {
    hide Slot;
    assert base + 0 == base;
    assert ring[Slot(base + 0, |ring|)] == items[0];
    forall i | 0 <= i < |items[1..]|
      ensures ring[Slot(base + 1 + i, |ring|)] == items[1..][i]
    {
      assert base + 1 + i == base + (i + 1);
      assert ring[Slot(base + (i + 1), |ring|)] == items[i + 1];
    }
  }

  lemma HeadOut<T>(s: seq<T>)
    requires s != []
    ensures multiset(s) == multiset{s[0]} + multiset(s[1..])
  {
    assert s == [s[0]] + s[1..];
  }

  lemma LastIn<T>(s: seq<T>, x: T)
    ensures multiset(s + [x]) == multiset(s) + multiset{x}
  {
  }
}
