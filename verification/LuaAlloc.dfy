/** Lua's allocator callback: `realloc` on the kernel heap under a budget. */
module LuaAlloc {
  import opened Bits
  import opened Runs
  import opened PhysAlloc
  import opened HeapModel
  import opened HeapRuns
  import opened SlabHeap

  /** Heap, accounting, and the sizes of the blocks this Lua state holds. */
  datatype Lua = Lua(heap: Heap, used: nat, limit: nat, sizes: map<nat, nat>)

  ghost function Total(sizes: map<nat, nat>): nat
    decreases |sizes|
  {
    if sizes == map[] then 0
    else
      var p :| p in sizes;
      assert |sizes - {p}| < |sizes| by { OneFewer(sizes, p); }
      sizes[p] + Total(sizes - {p})
  }

  lemma OneFewer(sizes: map<nat, nat>, p: nat)
    requires p in sizes
    ensures |sizes - {p}| == |sizes| - 1
  {
    assert (sizes - {p}).Keys == sizes.Keys - {p};
    assert |sizes| == |sizes.Keys| && |sizes - {p}| == |(sizes - {p}).Keys|;
  }

  lemma {:induction false} TotalWithout(sizes: map<nat, nat>, p: nat)
    requires p in sizes
    ensures Total(sizes) == sizes[p] + Total(sizes - {p})
    decreases |sizes|
  {
    var q :| q in sizes && Total(sizes) == sizes[q] + Total(sizes - {q});
    if q != p {
      OneFewer(sizes, q);
      TotalWithout(sizes - {q}, p);
      OneFewer(sizes, p);
      TotalWithout(sizes - {p}, q);
      assert sizes - {q} - {p} == sizes - {p} - {q};
    }
  }

  lemma TotalWith(sizes: map<nat, nat>, p: nat, n: nat)
    requires p !in sizes
    ensures Total(sizes[p := n]) == Total(sizes) + n
  {
    TotalWithout(sizes[p := n], p);
    assert sizes[p := n] - {p} == sizes;
  }

  function Wrapped(n: nat): nat {
    n % 0x1_0000_0000_0000_0000
  }

  function SaturatingSub(a: nat, b: nat): nat {
    if a < b then 0 else a - b
  }

  /** The books balance: what is charged is the sum of the sizes held, within the limit, and every block
      held is live and large enough. */
  ghost predicate LuaInv(s: Lua) {
    && Inv(s.heap)
    && s.used == Total(s.sizes) && s.used <= s.limit
    && Held(s.heap, s.sizes)
  }

  /** Every block held is live and large enough. */
  ghost predicate Held(h: Heap, sizes: map<nat, nat>) {
    forall p :: p in sizes ==> p != 0 && p in h.live && p in h.blocks && sizes[p] <= 8 * h.blocks[p].words
  }

  /** Blocks held do not overlap, so together they are no larger than memory. */
  lemma TotalFits(h: Heap, sizes: map<nat, nat>)
    requires Inv(h) && Held(h, sizes)
    ensures Total(sizes) <= 8 * |h.mem| < 0x8000_0000_0000_0000
  {
    hide Total, Payload;
    assert |h.mem| < 0x1000_0000_0000_0000;
    var cover := Covering(h, sizes);
    hide Inv, Held;
    assert cover <= Range(0, |h.mem|);
    SubsetSize(cover, Range(0, |h.mem|));
    RangeSize(0, |h.mem|);
  }

  /** The words of the blocks held. */
  lemma {:induction false} Covering(h: Heap, sizes: map<nat, nat>) returns (cover: set<nat>)
    requires Inv(h) && Held(h, sizes)
    ensures Total(sizes) <= 8 * |cover|
    ensures forall x :: x in cover ==> x < |h.mem| && exists p :: p in sizes && p in h.blocks && p <= x < p + h.blocks[p].words
    decreases |sizes|
  {
    if sizes == map[] {
      cover := {};
    } else {
      var p :| p in sizes;
      OneFewer(sizes, p);
      TotalWithout(sizes, p);
      var rest := Covering(h, sizes - {p});
      var own := Range(p, h.blocks[p].words);
      BlockInMemory(h, p);
      assert rest !! own by {
        forall x | x in rest && x in own
          ensures false
        {
          var q :| q in sizes - {p} && q in h.blocks && q <= x < q + h.blocks[q].words;
          HeldApart(h, p, q);
        }
      }
      RangeSize(p, h.blocks[p].words);
      cover := rest + own;
    }
  }

  lemma HeldApart(h: Heap, p: nat, q: nat)
    requires Inv(h) && p in h.blocks && q in h.blocks && p != q
    ensures p + h.blocks[p].words <= q || q + h.blocks[q].words <= p
  {
    assert Disjoint(p, h.blocks[p], q, h.blocks[q]);
  }

  /** Lua names its old size truthfully. */
  predicate Truthful(s: Lua, ptr: nat, osize: nat) {
    ptr != 0 ==> ptr in s.sizes && osize == s.sizes[ptr]
  }

  ghost predicate LuaStep(s: Lua, s': Lua, ptr: nat, osize: nat, nsize: nat, r: nat) {
    && s'.limit == s.limit
    && if nsize == 0 then
         && r == 0
         && if ptr == 0 then s' == s
            else
              && FreeStep(s.heap, s'.heap, ptr)
              && s'.used == SaturatingSub(s.used, osize) && s'.sizes == s.sizes - {ptr}
       else if ptr == 0 then
         if Wrapped(s.used + nsize) > s.limit then s' == s && r == 0
         else
           && MallocStep(s.heap, s'.heap, nsize, r)
           && (if r == 0 then s'.used == s.used && s'.sizes == s.sizes
               else s'.used == Wrapped(s.used + nsize) && s'.sizes == s.sizes[r := nsize])
       else if nsize > osize && Wrapped(s.used + (nsize - osize)) > s.limit then s' == s && r == 0
       else
         && ReallocStep(s.heap, s'.heap, ptr, nsize, r)
         && (if r == 0 then s'.used == s.used && s'.sizes == s.sizes
             else s'.used == Wrapped(SaturatingSub(s.used, osize) + nsize) && s'.sizes == (s.sizes - {ptr})[r := nsize])
  }

  // ---- What every call keeps ----

  lemma LuaStepKeepsInv(s: Lua, s': Lua, ptr: nat, osize: nat, nsize: nat, r: nat)
    requires LuaInv(s) && Truthful(s, ptr, osize) && LuaStep(s, s', ptr, osize, nsize, r)
    ensures LuaInv(s')
  {
    hide Inv, MallocStep, ReallocStep, FreeStep, Total, Payload, Held, Wrapped, SamePayload;
    TotalFits(s.heap, s.sizes);
    if nsize == 0 {
      if ptr != 0 {
        HeldIs(s.heap, s.sizes, ptr);
        FreeStepKeeps(s.heap, s'.heap, ptr);
        TotalWithout(s.sizes, ptr);
        StillHeld(s.heap, s'.heap, s.sizes, ptr);
      }
    } else if s' != s && ptr == 0 {
      MallocKeepsInv(s, s', nsize, r);
    } else if s' != s {
      HeldIs(s.heap, s.sizes, ptr);
      ReallocKeepsPrefix(s.heap, s'.heap, ptr, nsize, r);
      if r != 0 {
        BlockBytes(s'.heap, r);
        Recharged(s, s', ptr, osize, nsize, r);
      } else {
        NullKeeps(s, s', ptr, nsize);
      }
    }
  }

  lemma NullKeeps(s: Lua, s': Lua, ptr: nat, nsize: nat)
    requires LuaInv(s) && ptr in s.heap.live && nsize > 0 && ReallocStep(s.heap, s'.heap, ptr, nsize, 0)
    requires s'.used == s.used && s'.sizes == s.sizes && s'.limit == s.limit
    ensures LuaInv(s')
  {
    ReallocKeepsPrefix(s.heap, s'.heap, ptr, nsize, 0);
  }

  lemma MallocKeepsInv(s: Lua, s': Lua, nsize: nat, r: nat)
    requires LuaInv(s) && LuaStep(s, s', 0, 0, nsize, r) && nsize > 0 && s' != s
    ensures LuaInv(s')
  {
    hide Inv, MallocStep, Total, Payload, Held, Wrapped;
    TotalFits(s.heap, s.sizes);
    MallocAllocates(s.heap, s'.heap, nsize, r);
    if r != 0 {
      NotHeld(s.heap, s.sizes, r);
      TotalWith(s.sizes, r, nsize);
      BlockBytes(s'.heap, r);
      NoWrap(s.used + nsize);
      StillHeld(s.heap, s'.heap, s.sizes, r);
      assert s.sizes - {r} == s.sizes;
      HeldMore(s'.heap, s.sizes, r, nsize);
    }
  }

  lemma NoWrap(n: nat)
    requires n < 0x1_0000_0000_0000_0000
    ensures Wrapped(n) == n
  {
  }

  lemma HeldIs(h: Heap, sizes: map<nat, nat>, p: nat)
    requires Held(h, sizes) && p in sizes
    ensures p != 0 && p in h.live && p in h.blocks && sizes[p] <= 8 * h.blocks[p].words
  {
  }

  /** Null and blocks that are not live are not held. */
  lemma NotHeld(h: Heap, sizes: map<nat, nat>, p: nat)
    requires Held(h, sizes) && (p == 0 || p !in h.live)
    ensures p !in sizes
  {
  }

  lemma HeldMore(h: Heap, sizes: map<nat, nat>, p: nat, n: nat)
    requires Held(h, sizes) && p != 0 && p in h.live && p in h.blocks && n <= 8 * h.blocks[p].words
    ensures Held(h, sizes[p := n])
  {
  }

  lemma BlockBytes(h: Heap, p: nat)
    requires Inv(h) && p in h.live
    ensures p in h.blocks && 8 * h.blocks[p].words < 0x8000_0000_0000_0000 && p != 0
  {
    WordInPayload(h, p);
  }

  lemma StillHeld(h: Heap, h': Heap, sizes: map<nat, nat>, ptr: nat)
    requires forall q :: q in h.live && q != ptr ==> q in h'.live && SamePayload(h, h', q)
    requires Held(h, sizes)
    ensures Held(h', sizes - {ptr})
  {
    hide Payload;
    forall p | p in sizes - {ptr}
      ensures p != 0 && p in h'.live && p in h'.blocks && sizes[p] <= 8 * h'.blocks[p].words
    {
      assert SamePayload(h, h', p);
    }
  }

  lemma Recharged(s: Lua, s': Lua, ptr: nat, osize: nat, nsize: nat, r: nat)
    requires LuaInv(s) && ptr != 0 && ptr in s.sizes && osize == s.sizes[ptr] && r != 0
    requires Inv(s'.heap) && r in s'.heap.live && r in s'.heap.blocks && nsize <= 8 * s'.heap.blocks[r].words && s'.limit == s.limit
    requires nsize <= osize || Wrapped(s.used + (nsize - osize)) <= s.limit
    requires r == ptr || r !in s.heap.live
    requires s'.used == Wrapped(SaturatingSub(s.used, osize) + nsize) && s'.sizes == (s.sizes - {ptr})[r := nsize]
    requires forall q :: q in s.heap.live && q != ptr ==> SamePayload(s.heap, s'.heap, q)
    requires s'.heap.live == s.heap.live - {ptr} + {r}
    ensures LuaInv(s')
  {
    hide Inv, Total, Payload, Held, Wrapped, SamePayload;
    TotalFits(s.heap, s.sizes);
    TotalWithout(s.sizes, ptr);
    assert osize <= s.used;
    StillHeld(s.heap, s'.heap, s.sizes, ptr);
    if r != ptr {
      NotHeld(s.heap, s.sizes, r);
    }
    TotalWith(s.sizes - {ptr}, r, nsize);
    BlockBytes(s'.heap, r);
    NoWrap(s.used - osize + nsize);
    if nsize > osize {
      NoWrap(s.used + (nsize - osize));
    }
    HeldMore(s'.heap, s.sizes - {ptr}, r, nsize);
  }

  /** A call that returns null for a nonzero size changes nothing at all. */
  lemma FailureChangesNothing(s: Lua, s': Lua, ptr: nat, osize: nat, nsize: nat)
    requires LuaInv(s) && Truthful(s, ptr, osize) && LuaStep(s, s', ptr, osize, nsize, 0) && nsize > 0
    ensures s' == s
  {
    hide Inv, MallocStep, ReallocStep, Total;
    if s'.heap != s.heap {
      if ptr == 0 {
        MallocAllocates(s.heap, s'.heap, nsize, 0);
      } else {
        ReallocKeepsPrefix(s.heap, s'.heap, ptr, nsize, 0);
      }
    }
  }

  /** Shrinking never fails and never moves: the header's usable size covers it. */
  lemma ShrinkSucceeds(s: Lua, s': Lua, ptr: nat, osize: nat, nsize: nat, r: nat)
    requires LuaInv(s) && Truthful(s, ptr, osize) && LuaStep(s, s', ptr, osize, nsize, r) && ptr != 0 && 0 < nsize <= osize
    ensures r == ptr && s'.heap == s.heap && s'.used == s.used - osize + nsize
  {
    hide Inv, MallocStep, Total, Wrapped;
    TotalFits(s.heap, s.sizes);
    TotalWithout(s.sizes, ptr);
    NoWrap(s.used - osize + nsize);
    assert ptr in s.heap.blocks && nsize <= 8 * s.heap.blocks[ptr].words;
    BlockBytes(s.heap, ptr);
  }

  /** Growing keeps the old words in front. */
  lemma GrowKeepsPrefix(s: Lua, s': Lua, ptr: nat, osize: nat, nsize: nat, r: nat)
    requires LuaInv(s) && Truthful(s, ptr, osize) && LuaStep(s, s', ptr, osize, nsize, r) && ptr != 0 && nsize > 0 && r != 0
    ensures ptr in s.heap.blocks && r in s'.heap.blocks
    ensures var n := s.heap.blocks[ptr].words;
            && osize <= 8 * n && ptr + n <= |s.heap.mem| && r + n <= |s'.heap.mem|
            && s'.heap.mem[r..r + n] == s.heap.mem[ptr..ptr + n]
  {
    hide Inv, MallocStep, ReallocStep, Total;
    ReallocKeepsPrefix(s.heap, s'.heap, ptr, nsize, r);
    WordInPayload(s.heap, ptr);
    WordInPayload(s'.heap, r);
  }

  /** Exactly when a call for a non-zero size fails: it would exceed the limit, or the heap has no block. */
  lemma FailsIff(s: Lua, s': Lua, ptr: nat, osize: nat, nsize: nat, r: nat)
    requires LuaInv(s) && Truthful(s, ptr, osize) && LuaStep(s, s', ptr, osize, nsize, r) && nsize > 0
    ensures |s.heap.free| == 10 && (ptr != 0 ==> ptr in s.heap.blocks)
    ensures r == 0 <==>
            if ptr == 0 then s.used + nsize > s.limit || NoBlockFor(s.heap, nsize)
            else (nsize > osize && s.used + (nsize - osize) > s.limit)
                 || (nsize > 8 * s.heap.blocks[ptr].words && NoBlockFor(s.heap, nsize))
  {
    hide Inv, MallocStep, ReallocStep, Total, Held;
    TotalFits(s.heap, s.sizes);
    TenLists(s.heap);
    if ptr == 0 {
      NoWrapUnlessHuge(s.used, nsize);
      if Wrapped(s.used + nsize) <= s.limit {
        MallocNullIff(s.heap, s'.heap, nsize, r);
      }
    } else {
      HeldIs(s.heap, s.sizes, ptr);
      if nsize > osize {
        NoWrapUnlessHuge(s.used, nsize - osize);
      }
      BlockBytes(s.heap, ptr);
      if !(nsize > osize && Wrapped(s.used + (nsize - osize)) > s.limit) {
        ReallocNullIff(s.heap, s'.heap, ptr, nsize, r);
      }
      hide Wrapped;
    }
  }

  lemma TenLists(h: Heap)
    requires Inv(h)
    ensures |h.free| == 10
  {
  }

  lemma NoWrapUnlessHuge(used: nat, more: nat)
    requires used < 0x8000_0000_0000_0000
    ensures more <= MAX_LAYOUT ==> Wrapped(used + more) == used + more
    ensures Wrapped(used + more) <= used + more
  {
  }

  // ---- Runs ----

  /** A call of Lua's, or something else happening to the heap. */
  datatype LuaEvent = Call(ptr: nat, osize: nat, nsize: nat, r: nat) | Elsewhere(e: Event)

  ghost predicate LuaEventStep(s: Lua, e: LuaEvent, s': Lua) {
    match e
    case Call(ptr, osize, nsize, r) => Truthful(s, ptr, osize) && LuaStep(s, s', ptr, osize, nsize, r)
    case Elsewhere(h) => s' == s.(heap := s'.heap) && Touched(h) !in s.sizes && HeapStep(s.heap, h, s'.heap)
  }

  ghost predicate LuaRun(states: seq<Lua>, events: seq<LuaEvent>) {
    && |states| == |events| + 1
    && forall i :: 0 <= i < |events| ==> LuaEventStep(states[i], events[i], states[i + 1])
  }

  /** Over any run `used` is the sum of the sizes held and never exceeds the limit. */
  lemma {:induction false} RunStaysInBudget(states: seq<Lua>, events: seq<LuaEvent>, i: nat)
    requires LuaRun(states, events) && LuaInv(states[0]) && i < |states|
    ensures LuaInv(states[i]) && states[i].limit == states[0].limit
    ensures states[i].used == Total(states[i].sizes) <= states[0].limit
  {
    hide Inv, LuaStep, HeapStep, Total;
    if i > 0 {
      RunStaysInBudget(states, events, i - 1);
      var s, s' := states[i - 1], states[i];
      assert LuaEventStep(s, events[i - 1], s');
      match events[i - 1] {
        case Call(ptr, osize, nsize, r) =>
          LuaStepKeepsInv(s, s', ptr, osize, nsize, r);
          SameLimit(s, s', ptr, osize, nsize, r);
        case Elsewhere(h) =>
          StepKeepsHeap(s.heap, h, s'.heap);
          StillHeld(s.heap, s'.heap, s.sizes, Touched(h));
          assert s.sizes - {Touched(h)} == s.sizes;
      }
    }
  }

  lemma SameLimit(s: Lua, s': Lua, ptr: nat, osize: nat, nsize: nat, r: nat)
    requires LuaStep(s, s', ptr, osize, nsize, r)
    ensures s'.limit == s.limit
  {
  }

  // ---- The callback ----

  class LuaAllocState {
    var used: nat
    const limit: nat
    ghost var sizes: map<nat, nat>

    constructor (limit: nat)
      ensures used == 0 && this.limit == limit && sizes == map[]
    {
      this.used, this.limit, this.sizes := 0, limit, map[];
    }

    ghost function Contents(heap: SlabAllocator): Lua
      reads this, heap, heap.mem, heap.phys
    {
      Lua(heap.Contents(), used, limit, sizes)
    }
  }

  /** `heaven_lua_alloc`. */
  method HeavenLuaAlloc(state: LuaAllocState, heap: SlabAllocator, ptr: nat, osize: u64, nsize: u64) returns (r: nat)
    requires heap.Valid() && LuaInv(state.Contents(heap)) && Truthful(state.Contents(heap), ptr, osize)
    modifies state, heap, heap.mem, heap.phys`bitmap, heap.phys`freePages
    ensures heap.Valid() && LuaStep(old(state.Contents(heap)), state.Contents(heap), ptr, osize, nsize, r)
    ensures LuaInv(state.Contents(heap))
  {
    hide Inv, MallocStep, ReallocStep, FreeStep, PhysPageAllocator.Valid, Total;
    ghost var s := state.Contents(heap);
    if nsize == 0 {
      if ptr != 0 {
        state.used := SaturatingSub(state.used, osize);
        heap.Free(ptr);
        state.sizes := state.sizes - {ptr};
      }
      r := 0;
    } else if ptr == 0 {
      if Wrapped(state.used + nsize) > state.limit {
        r := 0;
      } else {
        r := heap.Malloc(nsize);
        if r != 0 {
          state.used := Wrapped(state.used + nsize);
          state.sizes := state.sizes[r := nsize];
        }
      }
    } else if nsize > osize && Wrapped(state.used + (nsize - osize)) > state.limit {
      r := 0;
    } else {
      r := heap.Realloc(ptr, nsize);
      if r != 0 {
        state.used := Wrapped(SaturatingSub(state.used, osize) + nsize);
        state.sizes := (state.sizes - {ptr})[r := nsize];
      }
    }
    LuaStepKeepsInv(s, state.Contents(heap), ptr, osize, nsize, r);
  }
}
