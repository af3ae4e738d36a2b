/** Which pages the heap holds: told from the headers of its large blocks and from its slabs. */
module HeapPages {
  import opened Bits
  import opened Bytes
  import opened Runs
  import opened HeapModel
  import opened HeapRuns

  /** The header of the block at `p` says that it is large and reaches into page `k`. */
  ghost predicate LargeCovers(s: Heap, p: nat, k: nat) {
    && 2 <= p < |s.mem| && s.mem[p - 1] % 256 == LARGE_ALLOC
    && p - 2 <= PAGE_WORDS * k < p + s.mem[p - 2] / 8
  }

  /** Page `k` holds cells or belongs to a large block. */
  ghost predicate HeapPage(s: Heap, k: nat) {
    k in s.slabs || exists p :: p in s.blocks && LargeCovers(s, p, k)
  }

  /** The pages in use that are not the heap's. */
  ghost function Others(s: Heap): set<nat> {
    set k | k in s.used && !HeapPage(s, k)
  }

  // ---- Pages by block ----

  predicate Spans(p: nat, b: Block, k: nat) {
    b.cls == LARGE_ALLOC && p - 2 <= PAGE_WORDS * k < p + b.words
  }

  lemma CoversIsSpans(s: Heap, p: nat, k: nat)
    requires Inv(s) && p in s.blocks
    ensures LargeCovers(s, p, k) <==> Spans(p, s.blocks[p], k)
  {
    assert HeaderOk(s.mem, p, s.blocks[p]) && ShapeOk(p, s.blocks[p]);
  }

  lemma HeapPageIs(s: Heap, k: nat)
    requires Inv(s)
    ensures HeapPage(s, k) <==> k in s.slabs || exists p :: p in s.blocks && Spans(p, s.blocks[p], k)
  {
    hide Inv, Spans, LargeCovers;
    forall p | p in s.blocks
      ensures LargeCovers(s, p, k) <==> Spans(p, s.blocks[p], k)
    {
      CoversIsSpans(s, p, k);
    }
    if p :| p in s.blocks && Spans(p, s.blocks[p], k) {
      assert LargeCovers(s, p, k);
    }
  }

  /** The heap's pages are in use. */
  lemma HeapPagesUsed(s: Heap, k: nat)
    requires Inv(s) && HeapPage(s, k)
    ensures k in s.used
  {
    HeapPageIs(s, k);
    if k in s.slabs {
      SlabPageUsed(s, k, 0);
    } else {
      var p :| p in s.blocks && Spans(p, s.blocks[p], k);
      assert PagesUsed(s.used, p, s.blocks[p]);
    }
  }

  /** In every state the pages in use are those of others, the slabs, and the pages that large blocks reach into. */
  lemma UsedIsAccounted(s: Heap, k: nat)
    requires Inv(s)
    ensures k in s.used <==> k in Others(s) || k in s.slabs || exists p :: p in s.blocks && LargeCovers(s, p, k)
  {
    hide Inv, LargeCovers;
    if HeapPage(s, k) {
      HeapPagesUsed(s, k);
    }
  }

  // ---- What each call does to pages ----

  /** The pages a call has put to use, or given back, are the heap's: the others' are as before. */
  ghost predicate OthersKept(s: Heap, s': Heap) {
    forall k: nat :: (k in s'.used && !HeapPage(s', k)) <==> (k in s.used && !HeapPage(s, k))
  }

  lemma KeptByParts(s: Heap, s': Heap)
    requires Inv(s) && Inv(s') && s'.used == s.used && s'.slabs == s.slabs && s'.blocks == s.blocks
    ensures OthersKept(s, s')
  {
    hide Inv, Spans;
    forall k: nat
      ensures HeapPage(s', k) <==> HeapPage(s, k)
    {
      HeapPageIs(s, k);
      HeapPageIs(s', k);
    }
  }

  lemma KeptTransitive(s: Heap, s1: Heap, s2: Heap)
    requires OthersKept(s, s1) && OthersKept(s1, s2)
    ensures OthersKept(s, s2)
  {
    hide HeapPage;
  }

  /** Freeing a large block gives back exactly the pages that its header says it has. */
  lemma FreeGivesPagesBack(s: Heap, s': Heap, p: nat)
    requires Inv(s) && p in s.live && FreeStep(s, s', p)
    ensures forall k: nat :: k in s'.used <==> k in s.used && !LargeCovers(s, p, k)
    ensures forall k: nat :: LargeCovers(s, p, k) ==> k in s.used
    ensures OthersKept(s, s')
  {
    WordInPayload(s, p);
    FreeKeepsInv(s, p, s');
    var b := s.blocks[p];
    assert ShapeOk(p, b) && PagesUsed(s.used, p, b);
    hide Inv;
    forall k: nat
      ensures LargeCovers(s, p, k) <==> Spans(p, b, k)
    {
      CoversIsSpans(s, p, k);
    }
    hide LargeCovers, PagesUsed;
    if b.cls == LARGE_ALLOC {
      SpansRange(p, b);
      LargeLeaves(s, s', p);
    } else {
      KeptByParts(s, s');
    }
  }

  lemma SpansRange(p: nat, b: Block)
    requires 2 <= p && ShapeOk(p, b) && b.cls == LARGE_ALLOC
    ensures forall k: nat :: Spans(p, b, k) <==> k in Range((p - 2) / PAGE_WORDS, (b.words + 2) / PAGE_WORDS)
  {
    hide SlabWords;
  }

  lemma LargeLeaves(s: Heap, s': Heap, p: nat)
    requires Inv(s) && Inv(s') && p in s.blocks && s'.slabs == s.slabs && s'.blocks == s.blocks - {p}
    requires forall k: nat :: k in s'.used <==> k in s.used && !Spans(p, s.blocks[p], k)
    ensures OthersKept(s, s')
  {
    hide Inv, Spans;
    forall k: nat
      ensures (k in s'.used && !HeapPage(s', k)) <==> (k in s.used && !HeapPage(s, k))
    {
      HeapPageIs(s, k);
      HeapPageIs(s', k);
      if q :| q in s.blocks && Spans(q, s.blocks[q], k) {
        if q != p {
          assert q in s'.blocks && Spans(q, s'.blocks[q], k);
        }
      }
    }
  }

  lemma LargeEnters(s: Heap, s': Heap, r: nat, b: Block)
    requires Inv(s) && Inv(s') && r !in s.blocks && s'.slabs == s.slabs && s'.blocks == s.blocks[r := b]
    requires forall k: nat :: k in s'.used <==> k in s.used || Spans(r, b, k)
    requires forall k: nat :: Spans(r, b, k) ==> k !in s.used
    ensures OthersKept(s, s')
  {
    hide Inv, Spans;
    forall k: nat
      ensures (k in s'.used && !HeapPage(s', k)) <==> (k in s.used && !HeapPage(s, k))
    {
      HeapPageIs(s, k);
      HeapPageIs(s', k);
      if HeapPage(s, k) {
        HeapPagesUsed(s, k);
      }
      if q :| q in s.blocks && Spans(q, s.blocks[q], k) {
        assert q in s'.blocks && Spans(q, s'.blocks[q], k);
      }
      if Spans(r, b, k) {
        assert r in s'.blocks && Spans(r, s'.blocks[r], k);
      }
    }
  }

  /** A page of cells is entered. */
  lemma SlabEnters(s: Heap, s': Heap, c: nat, k0: nat)
    requires Inv(s) && Inv(s') && s'.slabs == s.slabs[k0 := c] && k0 !in s.used && s'.used == s.used + {k0}
    requires forall p :: p in s.blocks ==> p in s'.blocks && s'.blocks[p] == s.blocks[p]
    requires forall p :: p in s'.blocks && p !in s.blocks ==> s'.blocks[p].cls != LARGE_ALLOC
    ensures OthersKept(s, s')
  {
    hide Inv;
    forall k: nat
      ensures (k in s'.used && !HeapPage(s', k)) <==> (k in s.used && !HeapPage(s, k))
    {
      HeapPageIs(s, k);
      HeapPageIs(s', k);
      if HeapPage(s, k) {
        HeapPagesUsed(s, k);
      }
      hide LargeCovers, HeapPage;
      if q :| q in s.blocks && Spans(q, s.blocks[q], k) {
        assert q in s'.blocks && Spans(q, s'.blocks[q], k);
      }
      if q :| q in s'.blocks && Spans(q, s'.blocks[q], k) {
        assert q in s.blocks && Spans(q, s.blocks[q], k);
      }
    }
  }

  /** What a successful allocation has put to use. */
  ghost predicate TookPages(s: Heap, s': Heap, bytes: nat, r: nat) {
    if bytes <= 2048 then
      || (s'.used == s.used && s'.slabs == s.slabs)
      || exists k: nat :: k !in s.used && s'.used == s.used + {k} && k in s'.slabs && s'.slabs == s.slabs[k := s'.slabs[k]]
    else
      && s'.slabs == s.slabs && r in s'.blocks
      && bytes <= 8 * s'.blocks[r].words < bytes + 4096
      && (forall k: nat :: k in s'.used <==> k in s.used || LargeCovers(s', r, k))
      && forall k: nat :: LargeCovers(s', r, k) ==> k !in s.used
  }

  /** A small block costs at most one page, which becomes a slab; a large one exactly the pages it reaches into,
      none of them in use before and as few as will hold it with its header. */
  lemma MallocTakesPages(s: Heap, s': Heap, bytes: nat, r: nat)
    requires Inv(s) && MallocStep(s, s', bytes, r)
    ensures OthersKept(s, s')
    ensures if r == 0 then s'.used == s.used else TookPages(s, s', bytes, r)
  {
    MallocAllocates(s, s', bytes, r);
    hide Inv, TakesPages, RefillStep, Pop, NoRun, PagesFor, TookPages, OthersKept;
    if s' == s {
      KeptByParts(s, s');
      SamePages(s, s', bytes, r);
    } else if ClassFor(AtLeast(bytes, 8)) < 10 {
      SmallTakesPages(s, s', bytes, r);
    } else {
      var k: nat :| TakesPages(s, s', PagesFor(AtLeast(bytes, 8)), k, r);
      LargePagesTaken(s, s', bytes, k, r);
    }
  }

  /** A block from a slab is no longer than the longest class. */
  lemma SmallBytes(s: Heap, s': Heap, bytes: nat, r: nat)
    requires Inv(s) && MallocStep(s, s', bytes, r) && s' != s && ClassFor(AtLeast(bytes, 8)) < 10
    ensures var c := ClassFor(AtLeast(bytes, 8)); SlabStep(s, s', c, r) && c < 9 && bytes <= 2048
  {
    hide TakesPages, RefillStep, Pop, NoRun, PagesFor;
  }

  lemma SmallTakesPages(s: Heap, s': Heap, bytes: nat, r: nat)
    requires Inv(s) && Inv(s') && MallocStep(s, s', bytes, r) && s' != s && ClassFor(AtLeast(bytes, 8)) < 10
    requires Allocated(s, s', bytes, r)
    ensures OthersKept(s, s') && (r == 0 || TookPages(s, s', bytes, r)) && (r == 0 ==> s'.used == s.used)
  {
    var c := ClassFor(AtLeast(bytes, 8));
    SmallBytes(s, s', bytes, r);
    hide Inv, ClassFor, RefillStep, Pop, NoRun, TookPages, OthersKept;
    if s.free[c] != [] {
      PoppedPages(s, s', c, bytes, r);
    } else {
      var k: nat :| RefillStep(s, s', c, k, r);
      RefilledPages(s, s', c, k, bytes, r);
    }
  }

  lemma SamePages(s: Heap, s': Heap, bytes: nat, r: nat)
    requires s' == s && Allocated(s, s', bytes, r)
    ensures r == 0
  {
  }

  lemma PoppedPages(s: Heap, s': Heap, c: nat, bytes: nat, r: nat)
    requires Inv(s) && Inv(s') && c < |s.heads| == |s.free| && s.free[c] != [] && s.heads[c] < |s.mem| && s' == Pop(s, c) && bytes <= 2048
    ensures OthersKept(s, s') && TookPages(s, s', bytes, r)
  {
    KeptByParts(s, s');
  }

  lemma RefilledPages(s: Heap, s': Heap, c: nat, k: nat, bytes: nat, r: nat)
    requires Inv(s) && Inv(s') && RefillStep(s, s', c, k, r) && s.free[c] == [] && bytes <= 2048
    ensures OthersKept(s, s') && TookPages(s, s', bytes, r)
  {
    RefillBlocksAre(s, s', c, k, r);
    hide *;
    SlabEnters(s, s', c, k);
    OnePage(s, s', bytes, r, k);
  }

  lemma OnePage(s: Heap, s': Heap, bytes: nat, r: nat, k: nat)
    requires bytes <= 2048 && k !in s.used && s'.used == s.used + {k} && k in s'.slabs && s'.slabs == s.slabs[k := s'.slabs[k]]
    ensures TookPages(s, s', bytes, r)
  {
  }

  lemma RefillBlocksAre(s: Heap, s': Heap, c: nat, k: nat, r: nat)
    requires Inv(s) && RefillStep(s, s', c, k, r) && s.free[c] == []
    ensures k !in s.used && s'.used == s.used + {k} && s'.slabs == s.slabs[k := c]
    ensures forall p :: p in s.blocks ==> p in s'.blocks && s'.blocks[p] == s.blocks[p]
    ensures forall p :: p in s'.blocks && p !in s.blocks ==> s'.blocks[p].cls != LARGE_ALLOC
  {
    PageIsFree(s, k, 1);
    assert CanRefill(s, c, k);
    hide Inv, CellBlocks, Carve, Cells, Cell, CellsPerPage, Blocks, LowestRun, CanRefill;
    forall p | p in s.blocks
      ensures p !in CellBlocks(c, k)
    {
      OldBlock(s, c, k, p);
    }
    CellBlocksAre(c, k);
  }

  lemma LargePagesTaken(s: Heap, s': Heap, bytes: nat, k: nat, r: nat)
    requires Inv(s) && Inv(s') && bytes > 4096 && TakesPages(s, s', PagesFor(bytes), k, r)
    ensures OthersKept(s, s') && TookPages(s, s', bytes, r)
  {
    var pages := PagesFor(bytes);
    PageIsFree(s, k, pages);
    LargeKeepsInv(s, k, pages);
    var b := s'.blocks[r];
    assert b == Block(LARGE_ALLOC, PAGE_WORDS * pages - 2);
    hide Inv, TakeLarge, LowestRun, OthersKept;
    assert forall j: nat :: Spans(r, b, j) <==> j in Range(k, pages);
    TakenIs(s, k, pages);
    forall j: nat
      ensures LargeCovers(s', r, j) <==> Spans(r, b, j)
    {
      CoversIsSpans(s', r, j);
    }
    hide LargeCovers, Spans;
    LargeEnters(s, s', r, b);
  }

  lemma TakenIs(s: Heap, k: nat, pages: nat)
    requires pages > 0 && PAGE_WORDS * k + PAGE_WORDS * pages <= |s.mem| < 0x1000_0000_0000_0000
    ensures var s' := TakeLarge(s, k, pages);
            && s'.used == s.used + Range(k, pages) && s'.slabs == s.slabs
            && s'.blocks == s.blocks[PAGE_WORDS * k + 2 := Block(LARGE_ALLOC, PAGE_WORDS * pages - 2)]
  {
  }

  // ---- Runs ----

  lemma StepKeepsOthers(s: Heap, e: Event, s': Heap)
    requires Inv(s) && HeapStep(s, e, s') && !e.OtherPages?
    ensures Inv(s') && OthersKept(s, s')
  {
    StepKeepsHeap(s, e, s');
    hide Inv, OthersKept, MallocStep, FreeStep;
    match e {
      case Malloc(bytes, r) => MallocTakesPages(s, s', bytes, r);
      case Free(p) =>
        if p == 0 {
          KeptByParts(s, s');
        } else {
          FreeGivesPagesBack(s, s', p);
        }
      case Realloc(p, bytes, r) =>
        if p == 0 {
          MallocTakesPages(s, s', bytes, r);
        } else if bytes == 0 {
          FreeGivesPagesBack(s, s', p);
        } else if bytes <= 8 * s.blocks[p].words {
          KeptByParts(s, s');
        } else {
          MovedKeepsOthers(s, s', p, bytes, r);
        }
      case Store(p, i, value) => KeptByParts(s, s');
    }
  }

  lemma MovedKeepsOthers(s: Heap, s': Heap, p: nat, bytes: nat, r: nat)
    requires Inv(s) && Inv(s') && p in s.live && p in s.blocks && bytes > 8 * s.blocks[p].words && ReallocStep(s, s', p, bytes, r) && p != 0 && bytes != 0
    ensures OthersKept(s, s')
  {
    hide Inv, OthersKept, MallocStep, FreeStep, SamePayload, CopyWords;
    var s1 :| MallocStep(s, s1, bytes, r) && MovedStep(s1, s', p, r);
    MallocTakesPages(s, s1, bytes, r);
    MallocAllocates(s, s1, bytes, r);
    if r != 0 {
      assert SamePayload(s, s1, p);
      LargerBlock(s, s1, p);
      CopyKeeps(s1, p, r);
      var s2 := s1.(mem := CopyWords(s1.mem, p, r, s1.blocks[p].words));
      KeptByParts(s1, s2);
      FreeGivesPagesBack(s2, s', p);
      KeptTransitive(s, s1, s2);
      KeptTransitive(s, s2, s');
    }
  }

  lemma LargerBlock(s: Heap, s1: Heap, p: nat)
    requires SamePayload(s, s1, p)
    ensures p in s1.blocks && s1.blocks[p] == s.blocks[p]
  {
  }

  /** Over any run in which only the heap takes and returns pages, the pages that are not the heap's stay the same,
      so all the rest is slabs and the pages of large blocks. */
  lemma {:induction false} RunAccountsPages(states: seq<Heap>, events: seq<Event>)
    requires HeapRun(states, events) && Inv(states[0]) && forall e :: e in events ==> !e.OtherPages?
    ensures Inv(states[|events|]) && Others(states[|events|]) == Others(states[0])
  {
    hide Inv, HeapStep, HeapPage;
    if events != [] {
      var n := |events| - 1;
      RunAccountsPages(states[..n + 1], events[..n]);
      StepKeepsOthers(states[n], events[n], states[n + 1]);
    }
  }

  /** Nothing of a large block is left: without large blocks the heap's pages are its slabs. */
  lemma NoLargeBlocksLeft(s: Heap)
    requires Inv(s) && forall p :: p in s.blocks ==> s.mem[p - 1] % 256 != LARGE_ALLOC
    ensures s.used == Others(s) + s.slabs.Keys
  {
    forall k: nat
      ensures k in s.used <==> k in Others(s) || k in s.slabs
    {
      UsedIsAccounted(s, k);
    }
  }
}
