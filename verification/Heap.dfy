/** The slab allocator in memory, proved to take the steps of HeapModel. */
module SlabHeap {
  import opened Bits
  import opened Bytes
  import opened Runs
  import opened PhysAlloc
  import opened HeapModel
  import opened HeapRuns

  class SlabAllocator {
    const mem: array<u64>
    const phys: PhysPageAllocator
    /** Heads of the free lists, 0 when empty. */
    var heads: seq<u64>
    ghost var blocks: map<nat, Block>
    ghost var live: set<nat>
    ghost var free: seq<seq<nat>>
    ghost var slabs: map<nat, nat>

    ghost function Contents(): Heap
      reads this, mem, phys
    {
      Heap(mem[..], heads, phys.Used(), phys.totalPages, blocks, live, free, slabs)
    }

    ghost predicate Valid()
      reads this, mem, phys
    {
      phys.Valid() && Inv(Contents())
    }

    constructor (mem: array<u64>, phys: PhysPageAllocator)
      requires phys.Valid() && PAGE_WORDS * phys.totalPages <= mem.Length < 0x1000_0000_0000_0000
      ensures Valid() && this.mem == mem && this.phys == phys && Contents() == FreshHeap(mem[..], phys.Used(), phys.totalPages)
    {
      this.mem, this.phys, this.heads := mem, phys, seq(10, _ => 0);
      this.blocks, this.live, this.free, this.slabs := map[], {}, seq(10, _ => []), map[];
      new;
      FreshHeapOk(mem[..], phys.Used(), phys.totalPages);
    }

    /** The first class that is large enough. */
    static method ClassForSize(size: nat) returns (cls: nat)
      ensures cls == ClassFor(size)
    {
      for i := 0 to 10
        invariant FirstClass(size, 0) == FirstClass(size, i)
      {
        if SLAB_CLASSES[i] >= size {
          return i;
        }
      }
      return 10;
    }

    /** Carve a fresh page into cells of an empty class. */
    method RefillClass(cls: nat) returns (ok: bool)
      requires Valid() && cls < 10 && free[cls] == []
      modifies this, mem, phys`bitmap, phys`freePages
      ensures phys.Valid() && phys.totalPages == old(phys.totalPages)
      ensures !ok ==> Contents() == old(Contents()) && (cls == 9 || NoRun(old(phys.Used()), phys.totalPages, 1, 1))
      ensures ok ==> exists k: nat :: RefilledFrom(old(Contents()), Contents(), cls, k)
    {
      hide BlocksOk, ListsOk, Accounted, CellsOk, Blocks, Cells, CellBlocks, LowestRun, NoRun, Members, Carve, PhysPageAllocator.Valid;
      var entrySize := SLAB_CLASSES[cls] + HEADER_SIZE;
      var entriesPerPage := 4096 / entrySize;
      if entriesPerPage == 0 {
        return false;
      }
      ghost var s := Contents();
      var page := phys.AllocPage();
      if page.Refused? {
        return false;
      }
      ghost var k := page.base / PAGE_SIZE;
      RunBelow(s.used, s.total, 1, k);
      CellsFit(cls);
      CarvePage(cls, page.base / 8, k);
      blocks := blocks + CellBlocks(cls, k);
      free := free[cls := Cells(cls, k, entriesPerPage) + free[cls]];
      slabs := slabs[k := cls];
      assert RefilledFrom(s, Contents(), cls, k);
      return true;
    }

    /** Write headers and links of the page's cells. */
    method CarvePage(cls: nat, base: nat, ghost k: nat)
      requires cls < 10 && |heads| == 10 && base == PAGE_WORDS * k && base + PAGE_WORDS <= mem.Length < 0x1000_0000_0000_0000
      requires base + Blocks(CellsPerPage(cls), EntryWords(cls)) <= mem.Length
      modifies this`heads, mem
      ensures |heads| == 10 && Carved(mem[..], heads[cls]) == Carve(old(mem[..]), old(heads)[cls], cls, k, CellsPerPage(cls))
      ensures heads == old(heads)[cls := heads[cls]]
    {
      hide Blocks, SlabWords;
      var entrySize := SLAB_CLASSES[cls] + HEADER_SIZE;
      var entriesPerPage := 4096 / entrySize;
      BlocksIs(0, EntryWords(cls));
      for i := 0 to entriesPerPage
        invariant |heads| == 10 && heads == old(heads)[cls := heads[cls]]
        invariant base + Blocks(i, EntryWords(cls)) <= mem.Length
        invariant Carved(mem[..], heads[cls]) == Carve(old(mem[..]), old(heads)[cls], cls, k, i)
      {
        CellAt(cls, k, i, entrySize);
        CellBounds(cls, k, i);
        CarveCell(cls, base + i * entrySize / 8);
      }
    }

    method CarveCell(cls: nat, ptr: nat)
      requires cls < 10 && |heads| == 10 && ptr + 3 <= mem.Length < 0x1000_0000_0000_0000
      modifies this`heads, mem
      ensures mem[..] == WriteCell(old(mem[..]), ptr + 2, cls, old(heads)[cls])
      ensures heads == old(heads)[cls := ptr + 2]
    {
      mem[ptr] := SLAB_CLASSES[cls];
      mem[ptr + 1] := LowByte(mem[ptr + 1], cls);
      var usable := ptr + 2;
      mem[usable] := heads[cls];
      heads := heads[cls := usable];
    }

    /** `heavenos_malloc`. */
    method Malloc(size: nat) returns (r: nat)
      requires Valid()
      modifies this, mem, phys`bitmap, phys`freePages
      ensures Valid() && phys.totalPages == old(phys.totalPages)
      ensures MallocStep(old(Contents()), Contents(), size, r)
    {
      hide BlocksOk, ListsOk, Accounted, CellsOk, NoRun, SlabStep, LargeStep, PhysPageAllocator.Valid;
      ghost var s := Contents();
      if size == 0 || size > MAX_LAYOUT {
        r := 0;
      } else {
        var cls := ClassForSize(AtLeast(size, 8));
        if cls < 10 {
          r := AllocSlab(cls);
        } else {
          r := AllocLarge(AtLeast(size, 8));
        }
      }
      assert MallocStep(s, Contents(), size, r);
      MallocAllocates(s, Contents(), size, r);
    }

    /** Take a cell, refilling the class when it has none. */
    method AllocSlab(cls: nat) returns (r: nat)
      requires Valid() && cls < 10
      modifies this, mem, phys`bitmap, phys`freePages
      ensures phys.Valid() && phys.totalPages == old(phys.totalPages)
      ensures SlabStep(old(Contents()), Contents(), cls, r)
    {
      hide BlocksOk, CellsOk, NoRun, LowestRun, Refill, PhysPageAllocator.Valid, Chain;
      ghost var s := Contents();
      ghost var refilled, page: nat := false, 0;
      assert ListOk(s, cls, s.heads[cls], s.free[cls]);
      EmptyListIsNull(s, cls);
      if heads[cls] == 0 {
        var ok := RefillClass(cls);
        if !ok {
          return 0;
        }
        refilled := true;
        page :| RefilledFrom(s, Contents(), cls, page);
        RefilledOk(s, Contents(), cls, page);
      }
      ghost var s1 := Contents();
      PopKeepsInv(s1, cls);
      var node := heads[cls];
      heads := heads[cls := mem[node]];
      live := live + {free[cls][0]};
      free := free[cls := free[cls][1..]];
      r := node;
      assert Contents() == Pop(s1, cls);
      if refilled {
        LowestRunIsARun(s.used, s.total, 1, 1, page);
        assert RefillStep(s, Contents(), cls, page, r);
      } else {
        assert s.free[cls] != [] && Contents() == Pop(s, cls);
      }
    }

    /** Take whole pages. */
    method AllocLarge(size: nat) returns (r: nat)
      requires Valid() && size > 4096
      modifies this, mem, phys`bitmap, phys`freePages
      ensures phys.Valid() && phys.totalPages == old(phys.totalPages)
      ensures if NoRun(old(phys.Used()), phys.totalPages, PagesFor(size), 1) then Contents() == old(Contents()) && r == 0
              else LargeStep(old(Contents()), Contents(), PagesFor(size), r)
    {
      hide BlocksOk, CellsOk, ListsOk, Accounted, LowestRun, PhysPageAllocator.Valid, NoRun, Members, Range, CountOnes, LargeStep;
      ghost var s := Contents();
      var total := size + HEADER_SIZE;
      var pages := (total + PAGE_SIZE - 1) / PAGE_SIZE;
      OneIsPowerOfTwo();
      var run := phys.AllocPagesContiguous(pages, 1);
      if run.Refused? {
        assert run.error == InvalidSize || run.error == InvalidAlignment || run.error == OutOfMemory;
        assert Contents() == s;
        return 0;
      }
      ghost var k := run.base / PAGE_SIZE;
      RunBelow(s.used, s.total, pages, k);
      LowestRunIsARun(s.used, s.total, pages, 1, k);
      r := WriteLargeHeader(run.base / 8, pages);
      PagesTaken(s, Contents(), pages, k, r);
    }

    method WriteLargeHeader(base: nat, pages: nat) returns (r: nat)
      requires base + PAGE_WORDS * pages <= mem.Length < 0x1000_0000_0000_0000 && pages > 0
      modifies this`blocks, this`live, mem
      ensures r == base + 2 && live == old(live) + {r} && blocks == old(blocks)[r := Block(LARGE_ALLOC, PAGE_WORDS * pages - 2)]
      ensures mem[..] == old(mem[..])[base := 8 * (PAGE_WORDS * pages - 2)][base + 1 := LowByte(old(mem[base + 1]), LARGE_ALLOC)]
    {
      mem[base] := pages * PAGE_SIZE - HEADER_SIZE;
      mem[base + 1] := LowByte(mem[base + 1], LARGE_ALLOC);
      r := base + 2;
      blocks := blocks[r := Block(LARGE_ALLOC, PAGE_WORDS * pages - 2)];
      live := live + {r};
    }

    /** `heavenos_free`: the header says where the block belongs. */
    method Free(ptr: nat)
      requires Valid() && (ptr == 0 || ptr in live)
      modifies this, mem, phys`bitmap, phys`freePages
      ensures Valid() && phys.totalPages == old(phys.totalPages)
      ensures if ptr == 0 then Contents() == old(Contents()) else FreeStep(old(Contents()), Contents(), ptr)
    {
      hide BlocksOk, ListsOk, Accounted, CellsOk, PhysPageAllocator.Valid, Range, FreeBlock;
      if ptr == 0 {
        return;
      }
      ghost var s := Contents();
      WordInPayload(s, ptr);
      if mem[ptr - 1] % 256 == LARGE_ALLOC {
        FreeLarge(ptr);
      } else {
        FreeCell(ptr);
      }
      FreeKeepsInv(s, ptr, Contents());
    }

    method FreeLarge(ptr: nat)
      requires Valid() && ptr in live && mem[..][ptr - 1] % 256 == LARGE_ALLOC && ptr >= 2
      requires ptr in blocks && blocks[ptr].cls == LARGE_ALLOC
      modifies this, phys`bitmap, phys`freePages
      ensures phys.Valid() && phys.totalPages == old(phys.totalPages)
      ensures FreeStep(old(Contents()), Contents(), ptr)
    {
      hide ListsOk, Accounted, CellsOk, PhysPageAllocator.Valid, Range, PagesUsed, Disjoint;
      ghost var s := Contents();
      WordInPayload(s, ptr);
      assert ShapeOk(ptr, s.blocks[ptr]);
      var total := mem[ptr - 2] + HEADER_SIZE;
      var pages := (total + PAGE_SIZE - 1) / PAGE_SIZE;
      LargeHeaderPages(ptr, blocks[ptr].words);
      phys.FreePages(8 * (ptr - 2), pages);
      blocks := blocks - {ptr};
      live := live - {ptr};
    }

    method FreeCell(ptr: nat)
      requires Valid() && ptr in live && ptr >= 2 && ptr in blocks && blocks[ptr].cls < 10
      modifies this, mem
      ensures FreeStep(old(Contents()), Contents(), ptr)
    {
      hide BlocksOk, ListsOk, Accounted, CellsOk, Range;
      ghost var s := Contents();
      WordInPayload(s, ptr);
      var cls := mem[ptr - 1] % 256;
      mem[ptr] := heads[cls];
      heads := heads[cls := ptr];
      free := free[cls := [ptr] + free[cls]];
      live := live - {ptr};
      assert Contents() == FreeBlock(s, ptr);
    }

    /** `heavenos_realloc`. */
    method Realloc(ptr: nat, newSize: nat) returns (r: nat)
      requires Valid() && (ptr == 0 || ptr in live)
      modifies this, mem, phys`bitmap, phys`freePages
      ensures Valid() && phys.totalPages == old(phys.totalPages)
      ensures ReallocStep(old(Contents()), Contents(), ptr, newSize, r)
    {
      hide Inv, MallocStep, FreeStep, PhysPageAllocator.Valid, Members, Payload;
      if ptr == 0 {
        r := Malloc(newSize);
        return;
      }
      if newSize == 0 {
        Free(ptr);
        return 0;
      }
      ghost var s := Contents();
      WordInPayload(s, ptr);
      var oldSize := mem[ptr - 2];
      if newSize <= oldSize {
        return ptr;
      }
      r := Malloc(newSize);
      ghost var s1 := Contents();
      MallocAllocates(s, s1, newSize, r);
      if r == 0 {
        return;
      }
      assert SamePayload(s, s1, ptr);
      MoveTo(ptr, r, oldSize);
    }

    /** Copy the old bytes and free the old block. */
    method MoveTo(ptr: nat, r: nat, oldSize: nat)
      requires Valid() && ptr in live && r in live && ptr != r && r != 0 && ptr in blocks && r in blocks
      requires oldSize == 8 * blocks[ptr].words && blocks[ptr].words < blocks[r].words
      modifies this, mem, phys`bitmap, phys`freePages
      ensures Valid() && phys.totalPages == old(phys.totalPages)
      ensures MovedStep(old(Contents()), Contents(), ptr, r)
    {
      hide Inv, FreeStep, PhysPageAllocator.Valid, Members, Payload, CopyWords, SamePayload;
      ghost var s := Contents();
      WordInPayload(s, ptr);
      WordInPayload(s, r);
      CopyPayload(ptr, r, oldSize / 8);
      CopyKeeps(s, ptr, r);
      Free(ptr);
    }

    method CopyPayload(ptr: nat, to: nat, words: nat)
      requires ptr + words <= mem.Length && to + words <= mem.Length
      modifies mem
      ensures mem[..] == CopyWords(old(mem[..]), ptr, to, words)
    {
      forall i | 0 <= i < words {
        mem[to + i] := mem[ptr + i];
      }
      assert forall i :: 0 <= i < mem.Length ==> mem[i] == CopyWords(old(mem[..]), ptr, to, words)[i];
    }

    /** `heavenos_malloc_size`: what the header says, at least what was asked for. */
    method MallocSize(ptr: nat) returns (size: nat)
      requires Valid() && (ptr == 0 || ptr in live)
      ensures ptr == 0 ==> size == 0
      ensures ptr != 0 ==> ptr in blocks && size == 8 * blocks[ptr].words
    {
      hide Inv;
      if ptr == 0 {
        return 0;
      }
      WordInPayload(Contents(), ptr);
      return mem[ptr - 2];
    }
  }

  // ---- Facts the methods use ----

  ghost predicate RefilledFrom(s: Heap, s': Heap, cls: nat, k: nat) {
    && cls < 9 && |s.heads| == |s.free| == 10 && LowestRun(s.used, s.total, 1, 1, k)
    && PAGE_WORDS * k + PAGE_WORDS <= |s.mem| < 0x1000_0000_0000_0000 && s' == Refill(s, cls, k)
  }

  lemma RefilledOk(s: Heap, s': Heap, cls: nat, k: nat)
    requires Inv(s) && RefilledFrom(s, s', cls, k) && s.free[cls] == []
    ensures Inv(s') && s'.free[cls] != []
  {
    PageIsFree(s, k, 1);
    RefillKeepsInv(s, cls, k);
  }

  lemma EmptyListIsNull(s: Heap, cls: nat)
    requires Inv(s) && cls < 10
    ensures s.free[cls] == [] <==> s.heads[cls] == 0
  {
    assert ListOk(s, cls, s.heads[cls], s.free[cls]);
  }

  lemma RunBelow(used: set<nat>, total: nat, n: nat, k: nat)
    requires LowestRun(used, total, n, 1, k)
    ensures k + n <= total
  {
  }

  lemma OneIsPowerOfTwo()
    ensures IsPowerOfTwo(1)
  {
  }

  lemma PagesTaken(s: Heap, s': Heap, pages: nat, k: nat, r: nat)
    requires pages > 0 && LowestRun(s.used, s.total, pages, 1, k) && PAGE_WORDS * s.total <= |s.mem| < 0x1000_0000_0000_0000
    requires PAGE_WORDS * k + PAGE_WORDS * pages <= |s.mem| && s' == TakeLarge(s, k, pages) && r == PAGE_WORDS * k + 2
    ensures LargeStep(s, s', pages, r)
  {
    assert TakesPages(s, s', pages, k, r);
  }

  /** Byte offsets of cells in words. */
  lemma CellAt(cls: nat, k: nat, i: nat, entrySize: nat)
    requires cls < 10 && entrySize == SLAB_CLASSES[cls] + HEADER_SIZE
    ensures PAGE_WORDS * k + i * entrySize / 8 + 2 == Cell(cls, k, i)
  {
    BlocksIs(i, EntryWords(cls));
    assert entrySize == 8 * EntryWords(cls);
    assert i * entrySize == 8 * (i * EntryWords(cls));
  }

  /** The page count that `free` derives from a large block's header. */
  lemma LargeHeaderPages(ptr: nat, words: nat)
    requires ptr % PAGE_WORDS == 2 && words > 0 && (words + 2) % PAGE_WORDS == 0
    ensures (8 * words + HEADER_SIZE + PAGE_SIZE - 1) / PAGE_SIZE == (words + 2) / PAGE_WORDS
    ensures 8 * (ptr - 2) / PAGE_SIZE == (ptr - 2) / PAGE_WORDS
  {
  }
}
