/** The heap's invariant over arbitrary runs, and what a client may rely on. */
module HeapRuns {
  import opened Bits
  import opened Bytes
  import opened Runs
  import opened HeapModel

  // ---- Free lists in memory ----

  /** A chain does not change when the words of its nodes do not. */
  lemma {:induction false} ChainFrame(m: seq<u64>, m': seq<u64>, head: nat, list: seq<nat>)
    requires Chain(m, head, list) && |m'| >= |m|
    requires forall i :: 0 <= i < |list| && list[i] < |m| ==> m'[list[i]] == m[list[i]]
    ensures Chain(m', head, list)
    decreases |list|
  {
    if list != [] {
      assert m'[list[0]] == m[list[0]];
      forall i | 0 <= i < |list[1..]| && list[1..][i] < |m|
        ensures m'[list[1..][i]] == m[list[1..][i]]
      {
        assert list[1..][i] == list[i + 1];
      }
      ChainFrame(m, m', m[head], list[1..]);
    }
  }

  /** Putting a node in front. */
  lemma ChainPush(m: seq<u64>, m': seq<u64>, head: nat, list: seq<nat>, p: nat)
    requires Chain(m, head, list) && 0 < p < |m| == |m'| && m'[p] == head
    requires forall i :: 0 <= i < |list| && list[i] < |m| ==> m'[list[i]] == m[list[i]]
    ensures Chain(m', p, [p] + list)
  {
    ChainFrame(m, m', head, list);
    assert ([p] + list)[1..] == list;
  }

  // ---- Cells of a page ----

  lemma CellBounds(cls: nat, k: nat, i: nat)
    requires cls < 10 && i < CellsPerPage(cls)
    ensures PAGE_WORDS * k + 2 <= Cell(cls, k, i)
    ensures Cell(cls, k, i) + SlabWords(cls) == PAGE_WORDS * k + Blocks(i + 1, EntryWords(cls)) <= PAGE_WORDS * k + PAGE_WORDS
  {
    hide Blocks;
    CellsFit(cls);
    BlocksAdd(i, 1, EntryWords(cls));
    BlocksIs(1, EntryWords(cls));
    BlocksMono(i + 1, CellsPerPage(cls), EntryWords(cls));
  }

  lemma CellsInOrder(cls: nat, k: nat, i: nat, j: nat)
    requires cls < 10 && i < j
    ensures Cell(cls, k, i) + SlabWords(cls) + 2 <= Cell(cls, k, j)
  {
    hide Blocks;
    BlocksAdd(i, 1, EntryWords(cls));
    BlocksIs(1, EntryWords(cls));
    BlocksMono(i + 1, j, EntryWords(cls));
  }

  lemma {:induction false} CellsAre(cls: nat, k: nat, n: nat)
    requires cls < 10
    ensures |Cells(cls, k, n)| == n
    ensures forall j :: 0 <= j < n ==> Cells(cls, k, n)[j] == Cell(cls, k, n - 1 - j)
  {
    hide Cell;
    if n > 0 {
      CellsAre(cls, k, n - 1);
    }
  }

  /** The first `n` cells have headers and are in front of `list`; nothing outside them was written. */
  ghost predicate CarvedTo(mem: seq<u64>, r: Carved, cls: nat, k: nat, n: nat, list: seq<nat>)
    requires cls < 10
  {
    && |r.mem| == |mem|
    && (forall w :: 0 <= w < |mem| && !(PAGE_WORDS * k <= w < PAGE_WORDS * k + Blocks(n, EntryWords(cls))) ==> r.mem[w] == mem[w])
    && (forall i: nat :: i < n ==> HeaderOk(r.mem, Cell(cls, k, i), Block(cls, SlabWords(cls))))
    && Chain(r.mem, r.head, Cells(cls, k, n) + list)
  }

  lemma {:induction false} CarveFacts(mem: seq<u64>, head: u64, cls: nat, k: nat, n: nat, list: seq<nat>)
    requires cls < 10 && n <= CellsPerPage(cls) && PAGE_WORDS * k + PAGE_WORDS <= |mem| < 0x1000_0000_0000_0000
    requires Chain(mem, head, list)
    requires forall i :: 0 <= i < |list| ==> list[i] < PAGE_WORDS * k || PAGE_WORDS * k + PAGE_WORDS <= list[i]
    ensures PAGE_WORDS * k + Blocks(n, EntryWords(cls)) <= |mem|
    ensures CarvedTo(mem, Carve(mem, head, cls, k, n), cls, k, n, list)
  {
    hide Blocks, CarvedTo, WriteCell, Cell, CellsPerPage, SlabWords, EntryWords, Chain;
    CellsFit(cls);
    BlocksMono(n, CellsPerPage(cls), EntryWords(cls));
    if n == 0 {
      NothingCarved(mem, head, cls, k, list);
    } else {
      CarveFacts(mem, head, cls, k, n - 1, list);
      OneMoreCell(mem, Carve(mem, head, cls, k, n - 1), cls, k, n, list);
    }
  }

  lemma NothingCarved(mem: seq<u64>, head: u64, cls: nat, k: nat, list: seq<nat>)
    requires cls < 10 && Chain(mem, head, list)
    ensures CarvedTo(mem, Carved(mem, head), cls, k, 0, list)
  {
    assert Cells(cls, k, 0) + list == list;
  }

  lemma OneMoreCell(mem: seq<u64>, r: Carved, cls: nat, k: nat, n: nat, list: seq<nat>)
    requires cls < 10 && 0 < n <= CellsPerPage(cls) && PAGE_WORDS * k + PAGE_WORDS <= |mem| < 0x1000_0000_0000_0000
    requires CarvedTo(mem, r, cls, k, n - 1, list)
    requires forall i :: 0 <= i < |list| ==> list[i] < PAGE_WORDS * k || PAGE_WORDS * k + PAGE_WORDS <= list[i]
    ensures 2 <= Cell(cls, k, n - 1) < |r.mem|
    ensures var p := Cell(cls, k, n - 1); CarvedTo(mem, Carved(WriteCell(r.mem, p, cls, r.head), p), cls, k, n, list)
  {
    hide Blocks, Chain, Cell, CellsPerPage, WriteCell, HeaderOk, SlabWords, EntryWords;
    CellBounds(cls, k, n - 1);
    var p := Cell(cls, k, n - 1);
    var m' := WriteCell(r.mem, p, cls, r.head);
    WrittenCell(r.mem, p, cls, r.head);
    CellPlace(cls, k, n - 1);
    forall i: nat | i < n
      ensures HeaderOk(m', Cell(cls, k, i), Block(cls, SlabWords(cls)))
    {
      if i < n - 1 {
        CellsInOrder(cls, k, i, n - 1);
        CellBounds(cls, k, i);
        HeaderFrame(r.mem, m', Cell(cls, k, i), Block(cls, SlabWords(cls)));
      }
    }
    CellOffList(cls, k, n, Cells(cls, k, n - 1), list);
    ChainPush(r.mem, m', r.head, Cells(cls, k, n - 1) + list, p);
    assert Cells(cls, k, n) + list == [p] + (Cells(cls, k, n - 1) + list);
  }

  lemma CellPlace(cls: nat, k: nat, i: nat)
    requires cls < 10
    ensures Cell(cls, k, i) == PAGE_WORDS * k + Blocks(i, EntryWords(cls)) + 2
    ensures Blocks(i + 1, EntryWords(cls)) == Blocks(i, EntryWords(cls)) + SlabWords(cls) + 2 && SlabWords(cls) > 0
  {
  }

  lemma HeaderFrame(m: seq<u64>, m': seq<u64>, p: nat, b: Block)
    requires HeaderOk(m, p, b) && |m'| == |m| && m'[p - 2] == m[p - 2] && m'[p - 1] == m[p - 1]
    ensures HeaderOk(m', p, b)
  {
  }

  lemma WrittenCell(m: seq<u64>, p: nat, cls: nat, next: u64)
    requires cls < 10 && 2 <= p && p + SlabWords(cls) <= |m|
    ensures var m' := WriteCell(m, p, cls, next);
            && HeaderOk(m', p, Block(cls, SlabWords(cls))) && m'[p] == next
            && forall w :: 0 <= w < |m| && !(p - 2 <= w <= p) ==> m'[w] == m[w]
  {
  }

  /** The next cell's words are none of the nodes already linked. */
  lemma CellOffList(cls: nat, k: nat, n: nat, cells: seq<nat>, list: seq<nat>)
    requires cls < 10 && 0 < n <= CellsPerPage(cls) && cells == Cells(cls, k, n - 1)
    requires forall i :: 0 <= i < |list| ==> list[i] < PAGE_WORDS * k || PAGE_WORDS * k + PAGE_WORDS <= list[i]
    ensures forall i :: 0 <= i < |cells + list| ==>
              (cells + list)[i] < Cell(cls, k, n - 1) - 2 || Cell(cls, k, n - 1) < (cells + list)[i]
  {
    hide Blocks, Cell, CellsPerPage, SlabWords, EntryWords;
    CellsAre(cls, k, n - 1);
    CellBounds(cls, k, n - 1);
    assert SlabWords(cls) > 0;
    forall i | 0 <= i < |cells|
      ensures cells[i] < Cell(cls, k, n - 1) - 2
    {
      CellsInOrder(cls, k, n - 2 - i, n - 1);
    }
  }

  // ---- Every operation keeps the invariant ----

  lemma PopKeepsInv(s: Heap, c: nat)
    requires Inv(s) && c < 10 && s.free[c] != []
    ensures s.heads[c] < |s.mem| && s.heads[c] == s.free[c][0] && Inv(Pop(s, c))
  {
    hide Blocks, HeaderOk, ShapeOk, PagesUsed, Disjoint, IsCell, Cell;
    assert ListOk(s, c, s.heads[c], s.free[c]);
    var s' := Pop(s, c);
    var r := s.free[c][0];
    forall d | 0 <= d < 10
      ensures ListOk(s', d, s'.heads[d], s'.free[d])
    {
      assert ListOk(s, d, s.heads[d], s.free[d]);
      if d != c {
        assert forall i :: 0 <= i < |s.free[d]| ==> s.free[d][i] != r;
      }
    }
    forall p | p in s'.blocks && p !in s'.live
      ensures s'.blocks[p].cls < 10 && p in s'.free[s'.blocks[p].cls]
    {
      var d := s.blocks[p].cls;
      var i :| 0 <= i < |s.free[d]| && s.free[d][i] == p;
      if d == c {
        assert s'.free[d][i - 1] == p;
      }
    }
  }

  /** A block and a page that is not in use have no words in common. */
  lemma OffPage(used: set<nat>, p: nat, b: Block, k: nat)
    requires PagesUsed(used, p, b) && k !in used && p >= 2
    ensures p + b.words <= PAGE_WORDS * k || PAGE_WORDS * k + PAGE_WORDS + 2 <= p
  {
  }

  lemma CellBlocksAre(cls: nat, k: nat)
    requires cls < 10
    ensures forall i: nat :: i < CellsPerPage(cls) ==> Cell(cls, k, i) in CellBlocks(cls, k)
    ensures forall p :: p in CellBlocks(cls, k) ==>
              CellBlocks(cls, k)[p] == Block(cls, SlabWords(cls)) && exists i: nat :: i < CellsPerPage(cls) && p == Cell(cls, k, i)
  {
    hide Cell, CellsPerPage;
    var n := CellsPerPage(cls);
    CellsAre(cls, k, n);
    forall i: nat | i < n
      ensures Cell(cls, k, i) in CellBlocks(cls, k)
    {
      assert Cells(cls, k, n)[n - 1 - i] == Cell(cls, k, i);
    }
  }

  /** A page that a class without free cells may be refilled from. */
  ghost predicate CanRefill(s: Heap, c: nat, k: nat) {
    Inv(s) && c < 9 && s.free[c] == [] && k !in s.used && k < s.total
  }

  /** Carving a free page adds its cells as free blocks and disturbs nothing else. */
  lemma RefillKeepsInv(s: Heap, c: nat, k: nat)
    requires CanRefill(s, c, k)
    ensures PAGE_WORDS * k + PAGE_WORDS <= |s.mem| && Inv(Refill(s, c, k)) && Refill(s, c, k).free[c] != []
  {
    hide Blocks, BlocksOk, ListsOk, Accounted, CellsOk, Carve, CellBlocks, CellsPerPage, Cells, Cell;
    RefillMemory(s, c, k);
    RefillBlocks(s, c, k);
    RefillLists(s, c, k);
    RefillAccounted(s, c, k);
    RefillCells(s, c, k);
  }

  /** Outside the page memory is as before; each cell has its header. */
  lemma RefillMemory(s: Heap, c: nat, k: nat)
    requires CanRefill(s, c, k)
    ensures PAGE_WORDS * k + PAGE_WORDS <= |s.mem| == |Refill(s, c, k).mem|
    ensures forall w :: 0 <= w < |s.mem| && !(PAGE_WORDS * k <= w < PAGE_WORDS * k + PAGE_WORDS) ==> Refill(s, c, k).mem[w] == s.mem[w]
    ensures forall i: nat :: i < CellsPerPage(c) ==> HeaderOk(Refill(s, c, k).mem, Cell(c, k, i), Block(c, SlabWords(c)))
    ensures Chain(Refill(s, c, k).mem, Refill(s, c, k).heads[c], Refill(s, c, k).free[c])
  {
    hide Blocks, Chain, HeaderOk, Carve, CellsPerPage, SlabWords, EntryWords, Cell, BlocksOk, Accounted, CellsOk;
    CellsFit(c);
    assert ListOk(s, c, s.heads[c], s.free[c]);
    CarveFacts(s.mem, s.heads[c], c, k, CellsPerPage(c), s.free[c]);
  }

  lemma OldBlock(s: Heap, c: nat, k: nat, p: nat)
    requires CanRefill(s, c, k) && p in s.blocks && PAGE_WORDS * k + PAGE_WORDS <= |s.mem|
    ensures 2 <= p && p + s.blocks[p].words <= |s.mem|
    ensures p + s.blocks[p].words <= PAGE_WORDS * k || PAGE_WORDS * k + PAGE_WORDS + 2 <= p
    ensures p !in CellBlocks(c, k) && Refill(s, c, k).blocks[p] == s.blocks[p]
  {
    hide Blocks, ListsOk, Accounted, CellsOk, Carve, CellsPerPage, Cells, Cell;
    OffPage(s.used, p, s.blocks[p], k);
    if p in CellBlocks(c, k) {
      NewBlock(c, k, p);
    }
  }

  lemma NewBlock(c: nat, k: nat, p: nat)
    requires c < 9 && p in CellBlocks(c, k)
    ensures CellBlocks(c, k)[p] == Block(c, SlabWords(c))
    ensures PAGE_WORDS * k + 2 <= p && p + SlabWords(c) <= PAGE_WORDS * k + PAGE_WORDS
    ensures ShapeOk(p, CellBlocks(c, k)[p]) && PagesUsed({k}, p, CellBlocks(c, k)[p])
  {
    hide Cell, CellsPerPage, Cells, Blocks, EntryWords;
    CellBlocksAre(c, k);
    var i: nat :| i < CellsPerPage(c) && p == Cell(c, k, i);
    CellBounds(c, k, i);
  }

  lemma NewBlocksApart(c: nat, k: nat, p: nat, q: nat)
    requires c < 9 && p in CellBlocks(c, k) && q in CellBlocks(c, k) && p != q
    ensures Disjoint(p, CellBlocks(c, k)[p], q, CellBlocks(c, k)[q])
  {
    hide Cell, CellsPerPage, Cells, CellBlocks, Blocks, EntryWords, SlabWords;
    CellBlocksAre(c, k);
    var i: nat :| i < CellsPerPage(c) && p == Cell(c, k, i);
    var j: nat :| j < CellsPerPage(c) && q == Cell(c, k, j);
    if i < j {
      CellsInOrder(c, k, i, j);
    } else {
      CellsInOrder(c, k, j, i);
    }
  }

  lemma MorePages(used: set<nat>, more: set<nat>, p: nat, b: Block)
    requires PagesUsed(used, p, b)
    ensures PagesUsed(used + more, p, b) && PagesUsed(more + used, p, b)
  {
  }

  lemma RefillBlocks(s: Heap, c: nat, k: nat)
    requires CanRefill(s, c, k)
    ensures PAGE_WORDS * k + PAGE_WORDS <= |s.mem| && BlocksOk(Refill(s, c, k))
  {
    hide Blocks, ListsOk, Accounted, CellsOk, Carve, CellBlocks, CellsPerPage, Cells, Cell, PagesUsed, SlabWords;
    RefillMemory(s, c, k);
    var s' := Refill(s, c, k);
    forall p | p in s'.blocks
      ensures HeaderOk(s'.mem, p, s'.blocks[p]) && ShapeOk(p, s'.blocks[p]) && PagesUsed(s'.used, p, s'.blocks[p])
    {
      if p in s.blocks {
        OldBlock(s, c, k, p);
        MorePages(s.used, {k}, p, s.blocks[p]);
      } else {
        NewBlock(c, k, p);
        CellBlocksAre(c, k);
        MorePages({k}, s.used, p, s'.blocks[p]);
      }
    }
    forall p, q | p in s'.blocks && q in s'.blocks && p != q
      ensures Disjoint(p, s'.blocks[p], q, s'.blocks[q])
    {
      if p in s.blocks { OldBlock(s, c, k, p); } else { NewBlock(c, k, p); }
      if q in s.blocks { OldBlock(s, c, k, q); } else { NewBlock(c, k, q); }
      if p !in s.blocks && q !in s.blocks {
        NewBlocksApart(c, k, p, q);
      }
    }
  }

  lemma RefillLists(s: Heap, c: nat, k: nat)
    requires CanRefill(s, c, k)
    ensures PAGE_WORDS * k + PAGE_WORDS <= |s.mem| && ListsOk(Refill(s, c, k)) && Refill(s, c, k).free[c] != []
  {
    hide Blocks, CellsOk, Carve, CellBlocks, Cells, Cell, PagesUsed, SlabWords, Chain, BlocksOk;
    RefillMemory(s, c, k);
    var s' := Refill(s, c, k);
    CellsAre(c, k, CellsPerPage(c));
    CellBlocksAre(c, k);
    hide CellsPerPage;
    assert s'.free[c] == Cells(c, k, CellsPerPage(c));
    forall d | 0 <= d < 10
      ensures ListOk(s', d, s'.heads[d], s'.free[d])
    {
      assert ListOk(s, d, s.heads[d], s.free[d]);
      if d == c {
        NewListOk(s, c, k);
      } else {
        forall i | 0 <= i < |s.free[d]|
          ensures s.free[d][i] in s'.blocks && s'.blocks[s.free[d][i]].cls == d && s.free[d][i] < |s.mem|
          ensures s'.mem[s.free[d][i]] == s.mem[s.free[d][i]]
        {
          OldBlock(s, c, k, s.free[d][i]);
          FirstWord(s, s.free[d][i]);
        }
        ChainFrame(s.mem, s'.mem, s.heads[d], s.free[d]);
      }
    }
  }

  lemma FirstWord(s: Heap, p: nat)
    requires Inv(s) && p in s.blocks
    ensures s.blocks[p].words > 0
  {
    assert ShapeOk(p, s.blocks[p]);
  }

  lemma NewListOk(s: Heap, c: nat, k: nat)
    requires CanRefill(s, c, k) && PAGE_WORDS * k + PAGE_WORDS <= |s.mem|
    requires Chain(Refill(s, c, k).mem, Refill(s, c, k).heads[c], Refill(s, c, k).free[c])
    ensures ListOk(Refill(s, c, k), c, Refill(s, c, k).heads[c], Refill(s, c, k).free[c])
  {
    hide Blocks, CellsOk, ListsOk, Carve, CellBlocks, Cells, Cell, PagesUsed, SlabWords, Chain, BlocksOk, CellsPerPage;
    var s' := Refill(s, c, k);
    var n := CellsPerPage(c);
    CellsAre(c, k, n);
    CellBlocksAre(c, k);
    assert s'.free[c] == Cells(c, k, n);
    forall i | 0 <= i < n
      ensures s'.free[c][i] in s'.blocks && s'.blocks[s'.free[c][i]].cls == c && s'.free[c][i] !in s.live
    {
      var p := Cell(c, k, n - 1 - i);
      assert p in CellBlocks(c, k);
      if p in s.live {
        OldBlock(s, c, k, p);
      }
    }
    forall i, j | 0 <= i < j < n
      ensures s'.free[c][i] != s'.free[c][j]
    {
      CellsInOrder(c, k, n - 1 - j, n - 1 - i);
    }
  }

  lemma RefillAccounted(s: Heap, c: nat, k: nat)
    requires CanRefill(s, c, k)
    ensures PAGE_WORDS * k + PAGE_WORDS <= |s.mem| && Accounted(Refill(s, c, k))
  {
    hide Blocks, CellsOk, Carve, CellBlocks, Cell, PagesUsed, SlabWords, Chain, BlocksOk, ListOk, Cells, CellsPerPage;
    RefillMemory(s, c, k);
    CellBlocksAre(c, k);
    CellsAre(c, k, CellsPerPage(c));
    var s' := Refill(s, c, k);
    forall p | p in s'.blocks && p !in s'.live
      ensures s'.blocks[p].cls < 10 && p in s'.free[s'.blocks[p].cls]
    {
      if p in s.blocks {
        OldBlock(s, c, k, p);
      } else {
        var i: nat :| i < CellsPerPage(c) && p == Cell(c, k, i);
        assert Cells(c, k, CellsPerPage(c))[CellsPerPage(c) - 1 - i] == p;
      }
    }
  }

  lemma RefillCells(s: Heap, c: nat, k: nat)
    requires CanRefill(s, c, k)
    ensures PAGE_WORDS * k + PAGE_WORDS <= |s.mem| && CellsOk(Refill(s, c, k))
  {
    hide Blocks, Carve, CellBlocks, Cell, PagesUsed, SlabWords, Chain, BlocksOk, ListsOk, Accounted, Cells, CellsPerPage;
    RefillMemory(s, c, k);
    CellBlocksAre(c, k);
    var s' := Refill(s, c, k);
    forall p, d | p in s'.blocks && s'.blocks[p].cls == d && d < 10
      ensures IsCell(s'.slabs, d, p)
    {
      if p in s.blocks {
        OldBlock(s, c, k, p);
        assert IsCell(s.slabs, d, p);
        var k', i: nat :| k' in s.slabs && s.slabs[k'] == d && i < CellsPerPage(d) && p == Cell(d, k', i);
        SlabPageUsed(s, k', i);
        assert k' in s'.slabs && s'.slabs[k'] == d;
      }
    }
    forall k', i: nat | k' in s'.slabs && i < CellsPerPage(s'.slabs[k'])
      ensures Cell(s'.slabs[k'], k', i) in s'.blocks && s'.blocks[Cell(s'.slabs[k'], k', i)].cls == s'.slabs[k']
    {
      if k' != k {
        OldBlock(s, c, k, Cell(s.slabs[k'], k', i));
      }
    }
  }

  /** The page of a cell is in use. */
  lemma SlabPageUsed(s: Heap, k: nat, i: nat)
    requires Inv(s) && k in s.slabs && i < CellsPerPage(s.slabs[k])
    ensures k in s.used
  {
    hide Blocks, Chain, ListsOk, Accounted, Cell, CellsPerPage;
    var p := Cell(s.slabs[k], k, i);
    assert p in s.blocks && s.blocks[p].cls == s.slabs[k];
    CellBounds(s.slabs[k], k, i);
    assert ShapeOk(p, s.blocks[p]) && PagesUsed(s.used, p, s.blocks[p]);
  }

  // ---- Whole pages ----

  /** A block does not reach into a run of pages that are not in use. */
  lemma OffRun(used: set<nat>, q: nat, b: Block, k: nat, pages: nat)
    requires PagesUsed(used, q, b) && FreeRun(used, k, pages) && q >= 2 && b.words > 0 && pages > 0
    ensures q + b.words <= PAGE_WORDS * k || PAGE_WORDS * (k + pages) + 2 <= q
  {
    var j: nat := if q - 2 < PAGE_WORDS * k then k else (q - 2) / PAGE_WORDS;
    assert PAGE_WORDS * j < q + b.words && q < PAGE_WORDS * j + PAGE_WORDS + 2 ==> j in used;
    assert k <= j < k + pages ==> j !in used;
  }

  ghost predicate CanTake(s: Heap, k: nat, pages: nat) {
    Inv(s) && pages > 0 && FreeRun(s.used, k, pages) && k + pages <= s.total
  }

  lemma LargeKeepsInv(s: Heap, k: nat, pages: nat)
    requires CanTake(s, k, pages)
    ensures PAGE_WORDS * k + PAGE_WORDS * pages <= |s.mem| && Inv(TakeLarge(s, k, pages))
    ensures PAGE_WORDS * k + 2 !in s.blocks
  {
    hide Blocks, Cell, CellsPerPage, BlocksOk, Chain, IsCell, Range, ListOk, FreeRun;
    LargeBlocks(s, k, pages);
    forall c | 0 <= c < 10
      ensures ListOk(TakeLarge(s, k, pages), c, s.heads[c], s.free[c])
    {
      LargeLists(s, k, pages, c);
    }
  }

  /** What stays of an old block when a run of pages is taken. */
  lemma LargeOld(s: Heap, k: nat, pages: nat, q: nat)
    requires CanTake(s, k, pages) && q in s.blocks
    ensures PAGE_WORDS * k + PAGE_WORDS * pages <= |s.mem|
    ensures 2 <= q
    ensures q + s.blocks[q].words <= PAGE_WORDS * k || PAGE_WORDS * (k + pages) + 2 <= q
    ensures s.blocks[q].words > 0 && PagesUsed(TakeLarge(s, k, pages).used, q, s.blocks[q])
    ensures HeaderOk(TakeLarge(s, k, pages).mem, q, s.blocks[q]) && TakeLarge(s, k, pages).mem[q] == s.mem[q]
  {
    hide Blocks, Cell, CellsPerPage, Chain, IsCell, Range, PagesUsed, Disjoint, ListOk;
    assert ShapeOk(q, s.blocks[q]) && HeaderOk(s.mem, q, s.blocks[q]) && PagesUsed(s.used, q, s.blocks[q]);
    OffRun(s.used, q, s.blocks[q], k, pages);
    MorePages(s.used, Range(k, pages), q, s.blocks[q]);
  }

  lemma LargeBlocks(s: Heap, k: nat, pages: nat)
    requires CanTake(s, k, pages)
    ensures PAGE_WORDS * k + PAGE_WORDS * pages <= |s.mem| && PAGE_WORDS * k + 2 !in s.blocks && BlocksOk(TakeLarge(s, k, pages))
  {
    hide Blocks, Cell, CellsPerPage, Chain, IsCell, Range, PagesUsed, ListOk, FreeRun, HeaderOk, SlabWords;
    LargeHeader(s, k, pages);
    LargePages(s.used, k, pages);
    forall q | q in s.blocks
      ensures q + s.blocks[q].words <= PAGE_WORDS * k || PAGE_WORDS * (k + pages) + 2 <= q
      ensures s.blocks[q].words > 0 && PagesUsed(TakeLarge(s, k, pages).used, q, s.blocks[q])
      ensures HeaderOk(TakeLarge(s, k, pages).mem, q, s.blocks[q])
    {
      LargeOld(s, k, pages, q);
    }
  }

  lemma LargeHeader(s: Heap, k: nat, pages: nat)
    requires pages > 0 && PAGE_WORDS * k + PAGE_WORDS * pages <= |s.mem| < 0x1000_0000_0000_0000
    ensures HeaderOk(TakeLarge(s, k, pages).mem, PAGE_WORDS * k + 2, Block(LARGE_ALLOC, PAGE_WORDS * pages - 2))
    ensures ShapeOk(PAGE_WORDS * k + 2, Block(LARGE_ALLOC, PAGE_WORDS * pages - 2))
  {
    hide Range;
  }

  lemma LargeLists(s: Heap, k: nat, pages: nat, c: nat)
    requires CanTake(s, k, pages) && c < 10 && PAGE_WORDS * k + PAGE_WORDS * pages <= |s.mem| && PAGE_WORDS * k + 2 !in s.blocks
    ensures ListOk(TakeLarge(s, k, pages), c, s.heads[c], s.free[c])
  {
    hide Blocks, Cell, CellsPerPage, Chain, IsCell, Range, PagesUsed, BlocksOk, FreeRun;
    assert ListOk(s, c, s.heads[c], s.free[c]);
    var s' := TakeLarge(s, k, pages);
    forall i | 0 <= i < |s.free[c]| && s.free[c][i] < |s.mem|
      ensures s'.mem[s.free[c][i]] == s.mem[s.free[c][i]]
    {
      LargeOld(s, k, pages, s.free[c][i]);
    }
    ChainFrame(s.mem, s'.mem, s.heads[c], s.free[c]);
  }

  lemma LargePages(used: set<nat>, k: nat, pages: nat)
    requires pages > 0
    ensures PagesUsed(used + Range(k, pages), PAGE_WORDS * k + 2, Block(LARGE_ALLOC, PAGE_WORDS * pages - 2))
  {
  }

  /** Giving back a large block's pages takes no page from a block beside it. */
  lemma PagesNotShared(used: set<nat>, p: nat, b: Block, q: nat, c: Block)
    requires Disjoint(p, b, q, c) && PagesUsed(used, q, c) && p % PAGE_WORDS == 2 && (b.words + 2) % PAGE_WORDS == 0
    ensures PagesUsed(used - Range((p - 2) / PAGE_WORDS, (b.words + 2) / PAGE_WORDS), q, c)
  {
    hide Range;
    forall j: nat | PAGE_WORDS * j < q + c.words && q < PAGE_WORDS * j + PAGE_WORDS + 2
      ensures j in used && !((p - 2) / PAGE_WORDS <= j < (p - 2) / PAGE_WORDS + (b.words + 2) / PAGE_WORDS)
    {
    }
  }

  lemma FreeLargeKeepsInv(s: Heap, p: nat)
    requires Inv(s) && p in s.live && p in s.blocks && s.blocks[p].cls == LARGE_ALLOC && 2 <= p < |s.mem|
    ensures Inv(FreeBlock(s, p))
  {
    hide Blocks, Cell, CellsPerPage, Chain, IsCell, Range, PagesUsed;
    var s', b := FreeBlock(s, p), s.blocks[p];
    assert ShapeOk(p, b);
    forall q | q in s'.blocks
      ensures PagesUsed(s'.used, q, s.blocks[q])
    {
      assert Disjoint(p, b, q, s.blocks[q]) && PagesUsed(s.used, q, s.blocks[q]);
      PagesNotShared(s.used, p, b, q, s.blocks[q]);
    }
    forall c | 0 <= c < 10
      ensures ListOk(s', c, s'.heads[c], s'.free[c])
    {
      assert ListOk(s, c, s.heads[c], s.free[c]);
    }
  }

  // ---- Writing inside a live block, freeing a cell ----

  /** Whatever is written into a live block's payload, nothing of the heap changes. */
  lemma PayloadIsFree(s: Heap, p: nat, m: seq<u64>)
    requires Inv(s) && p in s.live && p in s.blocks && |m| == |s.mem|
    requires forall w :: 0 <= w < |m| && !(p <= w < p + s.blocks[p].words) ==> m[w] == s.mem[w]
    ensures Inv(s.(mem := m))
    ensures forall q :: q in s.blocks && q != p ==> Payload(s.(mem := m), q) == Payload(s, q)
  {
    hide Blocks, Cell, CellsPerPage, Chain, IsCell, PagesUsed, ShapeOk;
    var s' := s.(mem := m);
    forall q | q in s.blocks && q != p
      ensures Disjoint(q, s.blocks[q], p, s.blocks[p])
    {
    }
    assert BlocksOk(s');
    forall c | 0 <= c < 10
      ensures ListOk(s', c, s'.heads[c], s'.free[c])
    {
      assert ListOk(s, c, s.heads[c], s.free[c]);
      forall i | 0 <= i < |s.free[c]| && s.free[c][i] < |s.mem|
        ensures m[s.free[c][i]] == s.mem[s.free[c][i]]
      {
        FirstWord(s, s.free[c][i]);
        assert Disjoint(s.free[c][i], s.blocks[s.free[c][i]], p, s.blocks[p]);
      }
      ChainFrame(s.mem, m, s.heads[c], s.free[c]);
    }
  }

  lemma PushKeepsInv(s: Heap, p: nat, c: nat)
    requires Inv(s) && p in s.live && p in s.blocks && s.blocks[p].cls == c && c < 10
    requires 2 <= p < |s.mem| && s.mem[p] == s.heads[c]
    ensures Inv(s.(heads := s.heads[c := p], free := s.free[c := [p] + s.free[c]], live := s.live - {p}))
  {
    hide Blocks, Cell, CellsPerPage, Chain, IsCell, PagesUsed, ShapeOk, HeaderOk, Disjoint;
    var s' := s.(heads := s.heads[c := p], free := s.free[c := [p] + s.free[c]], live := s.live - {p});
    forall d | 0 <= d < 10
      ensures ListOk(s', d, s'.heads[d], s'.free[d])
    {
      assert ListOk(s, d, s.heads[d], s.free[d]);
      if d == c {
        ChainPush(s.mem, s.mem, s.heads[c], s.free[c], p);
      }
    }
    forall q | q in s'.blocks && q !in s'.live
      ensures s'.blocks[q].cls < 10 && q in s'.free[s'.blocks[q].cls]
    {
      if q == p {
        assert s'.free[c][0] == p;
      } else {
        var d := s.blocks[q].cls;
        var i :| 0 <= i < |s.free[d]| && s.free[d][i] == q;
        assert d == c ==> s'.free[c][i + 1] == q;
      }
    }
  }

  lemma FreeKeepsInv(s: Heap, p: nat, s': Heap)
    requires Inv(s) && p in s.live && FreeStep(s, s', p)
    ensures Inv(s') && s'.live == s.live - {p}
    ensures forall q :: q in s.live && q != p ==> q in s'.blocks && s'.blocks[q] == s.blocks[q] && Payload(s', q) == Payload(s, q)
  {
    hide Blocks, Cell, CellsPerPage, Chain, IsCell, PagesUsed, ListOk, Disjoint;
    var c := s.blocks[p].cls;
    if c == LARGE_ALLOC {
      FreeLargeKeepsInv(s, p);
    } else {
      hide HeaderOk, ShapeOk, Inv;
      var m := s.mem[p := s.heads[c]];
      WordInPayload(s, p);
      PayloadIsFree(s, p, m);
      PushKeepsInv(s.(mem := m), p, c);
    }
  }

  lemma WordInPayload(s: Heap, p: nat)
    requires Inv(s) && p in s.live
    ensures p in s.blocks && s.blocks[p].words > 0 && 2 <= p && p + s.blocks[p].words <= |s.mem|
    ensures |s.heads| == |s.free| == 10 && (s.blocks[p].cls <= 8 || s.blocks[p].cls == LARGE_ALLOC)
    ensures s.mem[p - 2] == 8 * s.blocks[p].words && s.mem[p - 1] % 256 == s.blocks[p].cls
  {
    hide Blocks, Cell, CellsPerPage, Chain, IsCell, PagesUsed, ListOk, Disjoint;
    assert ShapeOk(p, s.blocks[p]) && HeaderOk(s.mem, p, s.blocks[p]);
  }

  /** A live block can be freed. */
  lemma FreeIsDefined(s: Heap, p: nat) returns (s': Heap)
    requires Inv(s) && p in s.live
    ensures FreeStep(s, s', p)
  {
    WordInPayload(s, p);
    s' := FreeBlock(s, p);
  }

  // ---- Allocation ----

  /** A null result is a call without effect; any other is a new block that is large enough. */
  ghost predicate Allocated(s: Heap, s': Heap, bytes: nat, r: nat) {
    && Inv(s')
    && (r == 0 ==> s' == s)
    && (r != 0 ==>
          && r !in s.live && s'.live == s.live + {r} && r in s'.blocks && bytes <= 8 * s'.blocks[r].words
          && forall q :: q in s.blocks ==> q in s'.blocks && s'.blocks[q] == s.blocks[q])
    && |s'.mem| == |s.mem|
    && (forall q :: q in s.live ==> SamePayload(s, s', q))
  }

  /** The block's payload words are the same in both memories. */
  ghost predicate SamePayload(s: Heap, s': Heap, q: nat) {
    && q in s.blocks && q in s'.blocks && s'.blocks[q] == s.blocks[q]
    && q + s.blocks[q].words <= |s.mem| == |s'.mem| && Payload(s', q) == Payload(s, q)
  }

  lemma PopAllocates(s: Heap, c: nat, bytes: nat)
    requires Inv(s) && c < 10 && s.free[c] != [] && bytes <= SLAB_CLASSES[c]
    ensures s.heads[c] < |s.mem| && Allocated(s, Pop(s, c), bytes, s.free[c][0]) && s.free[c][0] != 0
  {
    hide Blocks, Cell, CellsPerPage, Chain, IsCell, PagesUsed, Disjoint, CellsOk;
    PopKeepsInv(s, c);
    var r := s.free[c][0];
    assert ListOk(s, c, s.heads[c], s.free[c]) && ShapeOk(r, s.blocks[r]) && HeaderOk(s.mem, r, s.blocks[r]);
    forall q | q in s.live
      ensures SamePayload(s, Pop(s, c), q)
    {
      assert HeaderOk(s.mem, q, s.blocks[q]);
    }
  }

  lemma RefillAllocates(s: Heap, s': Heap, c: nat, k: nat, bytes: nat, r: nat)
    requires Inv(s) && c < 9 && s.free[c] == [] && bytes <= SLAB_CLASSES[c] && RefillStep(s, s', c, k, r)
    ensures Allocated(s, s', bytes, r) && r != 0
  {
    PageIsFree(s, k, 1);
    assert CanRefill(s, c, k) && s.live <= s.blocks.Keys;
    hide *;
    RefillKeepsInv(s, c, k);
    RefilledSame(s, c, k);
    ThenPopped(s, s', c, k, bytes, r);
  }

  lemma RefilledSame(s: Heap, c: nat, k: nat)
    requires CanRefill(s, c, k) && PAGE_WORDS * k + PAGE_WORDS <= |s.mem|
    ensures forall q :: q in s.blocks ==> SamePayload(s, Refill(s, c, k), q)
  {
    hide Blocks, Cell, CellsPerPage, Chain, IsCell, PagesUsed, Disjoint, CellsOk, BlocksOk, ListsOk, Carve, CellBlocks, Accounted;
    RefillMemory(s, c, k);
    forall q | q in s.blocks
      ensures SamePayload(s, Refill(s, c, k), q)
    {
      OldBlock(s, c, k, q);
    }
  }

  lemma ThenPopped(s: Heap, s': Heap, c: nat, k: nat, bytes: nat, r: nat)
    requires RefillStep(s, s', c, k, r) && bytes <= SLAB_CLASSES[c] && s.live <= s.blocks.Keys
    requires Inv(Refill(s, c, k)) && Refill(s, c, k).free[c] != [] && |Refill(s, c, k).mem| == |s.mem|
    requires forall q :: q in s.blocks ==> SamePayload(s, Refill(s, c, k), q)
    ensures Allocated(s, s', bytes, r) && r != 0
  {
    var s1 := Refill(s, c, k);
    hide Inv, LowestRun, Pop, Carve, CellBlocks, Cells, CellsPerPage, SamePayload, Allocated;
    PopAllocates(s1, c, bytes);
    AllocatedAfter(s, s1, s', bytes, r);
  }

  lemma AllocatedAfter(s: Heap, s1: Heap, s': Heap, bytes: nat, r: nat)
    requires s1.live == s.live && |s1.mem| == |s.mem| && s.live <= s.blocks.Keys
    requires forall q :: q in s.blocks ==> SamePayload(s, s1, q)
    requires Allocated(s1, s', bytes, r) && r != 0
    ensures Allocated(s, s', bytes, r)
  {
    hide Inv;
    forall q | q in s.live
      ensures SamePayload(s, s', q)
    {
      assert SamePayload(s, s1, q) && SamePayload(s1, s', q);
    }
    assert forall q :: q in s.blocks ==> SamePayload(s, s1, q);
  }

  lemma PageIsFree(s: Heap, k: nat, pages: nat)
    requires LowestRun(s.used, s.total, pages, 1, k) && pages > 0
    ensures k !in s.used && k + pages <= s.total && FreeRun(s.used, k, pages)
  {
  }

  lemma LargeAllocates(s: Heap, s': Heap, bytes: nat, k: nat, r: nat)
    requires Inv(s) && TakesPages(s, s', PagesFor(bytes), k, r)
    ensures Allocated(s, s', bytes, r) && r != 0
  {
    hide Blocks, Cell, CellsPerPage, Chain, IsCell, PagesUsed, Disjoint, CellsOk, BlocksOk, ListsOk, HeaderOk, Range;
    var pages := PagesFor(bytes);
    PageIsFree(s, k, pages);
    LargeKeepsInv(s, k, pages);
    forall q | q in s.blocks
      ensures SamePayload(s, s', q)
    {
      LargeOld(s, k, pages, q);
      assert BlocksOk(s);
      BlockInMemory(s, q);
    }
    assert r !in s.live;
  }

  lemma BlockInMemory(s: Heap, q: nat)
    requires BlocksOk(s) && q in s.blocks
    ensures 2 <= q && q + s.blocks[q].words <= |s.mem|
  {
    assert HeaderOk(s.mem, q, s.blocks[q]);
  }

  lemma MallocAllocates(s: Heap, s': Heap, bytes: nat, r: nat)
    requires Inv(s) && MallocStep(s, s', bytes, r)
    ensures Allocated(s, s', bytes, r)
  {
    hide Blocks, Cell, CellsPerPage, Chain, IsCell, PagesUsed, Disjoint, Pop, Refill, TakeLarge, RefillStep, TakesPages;
    var size := AtLeast(bytes, 8);
    var c := ClassFor(size);
    if r != 0 {
      if c < 10 && s.free[c] != [] {
        PopAllocates(s, c, bytes);
      } else if c < 10 {
        var k: nat :| RefillStep(s, s', c, k, r);
        RefillAllocates(s, s', c, k, bytes, r);
      } else {
        var k: nat :| TakesPages(s, s', PagesFor(size), k, r);
        LargeAllocates(s, s', size, k, r);
      }
    } else {
      hide Inv;
      NullMeansNothing(s, s', bytes);
      AllPayloadsSame(s);
    }
  }

  lemma AllPayloadsSame(s: Heap)
    requires Inv(s)
    ensures forall q :: q in s.live ==> SamePayload(s, s, q)
  {
    forall q | q in s.live
      ensures SamePayload(s, s, q)
    {
      WordInPayload(s, q);
    }
  }

  lemma NullMeansNothing(s: Heap, s': Heap, bytes: nat)
    requires Inv(s) && MallocStep(s, s', bytes, 0)
    ensures s' == s
  {
    hide Blocks, Cell, CellsPerPage, Chain, IsCell, PagesUsed, Disjoint, Refill, TakeLarge;
    var c := ClassFor(AtLeast(bytes, 8));
    if c < 10 && s.free[c] != [] {
      PopAllocates(s, c, 0);
    } else if s' != s && c < 10 && bytes > 0 {
      var k: nat :| RefillStep(s, s', c, k, 0);
      RefillAllocates(s, s', c, k, 0, 0);
    }
  }

  /** No request, an impossible one, one whose cell would exceed a page, or no memory. */
  ghost predicate NoBlockFor(s: Heap, bytes: nat)
    requires |s.free| == 10
  {
    || bytes == 0 || bytes > MAX_LAYOUT || 2048 < bytes <= 4096
    || (bytes <= 2048 && s.free[ClassFor(AtLeast(bytes, 8))] == [] && NoRun(s.used, s.total, 1, 1))
    || (bytes > 4096 && NoRun(s.used, s.total, PagesFor(bytes), 1))
  }

  /** Exactly when `malloc` returns null: no request, an impossible one, one of 2049..4096 bytes (whose
      cell would exceed a page), or no memory. */
  lemma MallocNullIff(s: Heap, s': Heap, bytes: nat, r: nat)
    requires Inv(s) && MallocStep(s, s', bytes, r)
    ensures r == 0 <==> NoBlockFor(s, bytes)
  {
    hide Blocks, Cell, CellsPerPage, Chain, IsCell, PagesUsed, Disjoint, Refill, TakeLarge, NoRun, Pop;
    var c := ClassFor(AtLeast(bytes, 8));
    assert c == 9 <==> 2048 < bytes <= 4096;
    if 0 < bytes <= MAX_LAYOUT && c < 10 {
      if s.free[c] != [] {
        PopAllocates(s, c, 0);
        NoFreeInLargest(s, c);
      } else if c != 9 && !NoRun(s.used, s.total, 1, 1) {
        var k: nat :| RefillStep(s, s', c, k, r);
        RefillAllocates(s, s', c, k, 0, r);
      }
    }
  }

  lemma NoFreeInLargest(s: Heap, c: nat)
    requires Inv(s) && c < 10 && s.free[c] != []
    ensures c != 9
  {
    assert ListOk(s, c, s.heads[c], s.free[c]) && ShapeOk(s.free[c][0], s.blocks[s.free[c][0]]);
  }

  // ---- realloc ----

  /** A null result of a growing realloc changes nothing; otherwise the result holds the old bytes. */
  lemma ReallocKeepsPrefix(s: Heap, s': Heap, p: nat, bytes: nat, r: nat)
    requires Inv(s) && p in s.live && bytes > 0 && ReallocStep(s, s', p, bytes, r)
    ensures Inv(s') && (r == 0 || r == p ==> s' == s) && (bytes <= 8 * s.blocks[p].words ==> r == p)
    ensures r != 0 ==> r in s'.live && s'.live == s.live - {p} + {r} && bytes <= 8 * s'.blocks[r].words
    ensures r != 0 ==> p in s.blocks && (r == p || s.blocks[p].words < s'.blocks[r].words)
    ensures r != 0 && r != p ==>
              && r !in s.live && r + s.blocks[p].words <= |s'.mem| && p + s.blocks[p].words <= |s.mem|
              && s'.mem[r..r + s.blocks[p].words] == Payload(s, p)
    ensures forall q :: q in s.live && q != p ==> SamePayload(s, s', q)
  {
    hide Blocks, Cell, CellsPerPage, Chain, IsCell, PagesUsed, Disjoint, Accounted, CellsOk, BlocksOk, ListsOk, MallocStep, FreeStep;
    assert p in s.blocks && p != 0 by { WordInPayload(s, p); }
    AllPayloadsSame(s);
    if bytes > 8 * s.blocks[p].words {
      var s1 :| MallocStep(s, s1, bytes, r) && MovedStep(s1, s', p, r);
      MallocAllocates(s, s1, bytes, r);
      if r != 0 {
        MoveKeeps(s, s1, s', p, bytes, r);
      }
    }
  }

  /** Exactly when `realloc` of a live block to a non-zero size returns null: the block is too small, and an
      allocation of the new size would return null. */
  lemma ReallocNullIff(s: Heap, s': Heap, p: nat, bytes: nat, r: nat)
    requires Inv(s) && p in s.live && bytes > 0 && ReallocStep(s, s', p, bytes, r)
    ensures p in s.blocks && p != 0
    ensures r == 0 <==> bytes > 8 * s.blocks[p].words && NoBlockFor(s, bytes)
  {
    WordInPayload(s, p);
    hide Inv, MallocStep, MovedStep, FreeStep, NoBlockFor;
    if bytes > 8 * s.blocks[p].words {
      var s1 :| MallocStep(s, s1, bytes, r) && MovedStep(s1, s', p, r);
      MallocNullIff(s, s1, bytes, r);
    }
  }

  lemma MoveKeeps(s: Heap, s1: Heap, s': Heap, p: nat, bytes: nat, r: nat)
    requires Inv(s) && p in s.live && p in s.blocks && p != 0 && r != 0 && bytes > 8 * s.blocks[p].words
    requires Allocated(s, s1, bytes, r) && MovedStep(s1, s', p, r)
    ensures Inv(s') && s'.live == s.live - {p} + {r} && r in s'.blocks && bytes <= 8 * s'.blocks[r].words
    ensures r !in s.live && r + s.blocks[p].words <= |s'.mem| && p + s.blocks[p].words <= |s.mem|
    ensures s'.mem[r..r + s.blocks[p].words] == Payload(s, p)
    ensures forall q :: q in s.live && q != p ==> SamePayload(s, s', q)
  {
    hide Inv, FreeStep, SamePayload, Payload, CopyWords;
    assert SamePayload(s, s1, p);
    SameMeans(s, s1, p, 0);
    var n := s.blocks[p].words;
    CopyKeeps(s1, p, r);
    var s2 := s1.(mem := CopyWords(s1.mem, p, r, s1.blocks[p].words));
    FreeStepKeeps(s2, s', p);
    FreeKeepsInv(s2, p, s');
    SameMeans(s2, s', r, n);
    forall q | q in s.live && q != p
      ensures SamePayload(s, s', q)
    {
      SameTransitive(s, s1, s2, q);
      SameTransitive(s, s2, s', q);
    }
  }

  /** Copying a block's words into a larger live block. */
  lemma CopyKeeps(s: Heap, p: nat, r: nat)
    requires Inv(s) && p in s.live && r in s.live && p != r && p in s.blocks && r in s.blocks
    requires s.blocks[p].words < s.blocks[r].words
    ensures var n := s.blocks[p].words;
            && p + n <= |s.mem| && r + n <= |s.mem|
            && var s' := s.(mem := CopyWords(s.mem, p, r, n));
            && Inv(s') && s'.mem[r..r + n] == Payload(s, p)
            && forall q :: q in s.live && q != r ==> SamePayload(s, s', q)
  {
    hide Inv;
    WordInPayload(s, p);
    WordInPayload(s, r);
    var m := CopyWords(s.mem, p, r, s.blocks[p].words);
    PayloadIsFree(s, r, m);
    forall q | q in s.live && q != r
      ensures SamePayload(s, s.(mem := m), q)
    {
      WordInPayload(s, q);
    }
  }

  lemma SameMeans(s: Heap, s': Heap, q: nat, n: nat)
    requires SamePayload(s, s', q) && n <= s.blocks[q].words
    ensures q in s.blocks && q in s'.blocks && s'.blocks[q] == s.blocks[q]
    ensures q + s.blocks[q].words <= |s.mem| == |s'.mem| && Payload(s', q) == Payload(s, q)
    ensures s'.mem[q..q + n] == s.mem[q..q + n]
  {
    assert Payload(s', q)[..n] == s'.mem[q..q + n];
    assert Payload(s, q)[..n] == s.mem[q..q + n];
  }

  lemma SameTransitive(s: Heap, s1: Heap, s2: Heap, q: nat)
    requires SamePayload(s, s1, q) && SamePayload(s1, s2, q)
    ensures SamePayload(s, s2, q)
  {
  }

  // ---- Runs ----

  datatype Event =
    | Malloc(bytes: nat, r: nat)
    | Free(p: nat)
    | Realloc(p: nat, bytes: nat, r: nat)
    | Store(p: nat, i: nat, value: u64)     // a client writes a word of its block
    | OtherPages(used: set<nat>)            // other users of the page allocator

  /** One event with a legal argument: only live blocks are freed, resized or written. */
  ghost predicate HeapStep(s: Heap, e: Event, s': Heap) {
    match e
    case Malloc(bytes, r) => MallocStep(s, s', bytes, r)
    case Free(p) => if p == 0 then s' == s else p in s.live && FreeStep(s, s', p)
    case Realloc(p, bytes, r) => (p == 0 || p in s.live) && ReallocStep(s, s', p, bytes, r)
    case Store(p, i, value) =>
      && p in s.live && p in s.blocks && i < s.blocks[p].words && p + i < |s.mem|
      && s' == s.(mem := s.mem[p + i := value])
    case OtherPages(used) =>
      s' == s.(used := used) && forall p :: p in s.blocks ==> PagesUsed(used, p, s.blocks[p])
  }

  /** The block an event frees, resizes or writes. */
  function Touched(e: Event): nat {
    match e
    case Free(p) => p
    case Realloc(p, _, _) => p
    case Store(p, _, _) => p
    case _ => 0
  }

  /** One event keeps the invariant and every block that it does not touch. */
  lemma StepKeepsHeap(s: Heap, e: Event, s': Heap)
    requires Inv(s) && HeapStep(s, e, s')
    ensures Inv(s') && forall q :: q in s.live && q != Touched(e) ==> q in s'.live && SamePayload(s, s', q)
  {
    hide Blocks, Cell, CellsPerPage, Chain, IsCell, PagesUsed, Disjoint, MallocStep, FreeStep, Inv;
    AllPayloadsSame(s);
    match e {
      case Malloc(bytes, r) => MallocAllocates(s, s', bytes, r);
      case Free(p) => if p != 0 { FreeStepKeeps(s, s', p); }
      case Realloc(p, bytes, r) =>
        if p == 0 {
          MallocAllocates(s, s', bytes, r);
        } else if bytes == 0 {
          FreeStepKeeps(s, s', p);
        } else {
          ReallocKeepsPrefix(s, s', p, bytes, r);
        }
      case Store(p, i, value) => PayloadIsFree(s, p, s'.mem);
      case OtherPages(used) => PagesElsewhere(s, used);
    }
  }

  lemma FreeStepKeeps(s: Heap, s': Heap, p: nat)
    requires Inv(s) && p in s.live && FreeStep(s, s', p)
    ensures Inv(s') && forall q :: q in s.live && q != p ==> q in s'.live && SamePayload(s, s', q)
  {
    FreeKeepsInv(s, p, s');
    hide Inv;
    forall q | q in s.live && q != p
      ensures SamePayload(s, s', q)
    {
      WordInPayload(s, q);
      WordInPayload(s', q);
    }
  }

  lemma PagesElsewhere(s: Heap, used: set<nat>)
    requires Inv(s) && forall p :: p in s.blocks ==> PagesUsed(used, p, s.blocks[p])
    ensures Inv(s.(used := used))
  {
    hide Blocks, Cell, CellsPerPage, Chain, IsCell, PagesUsed, Disjoint, HeaderOk, ShapeOk;
    var s' := s.(used := used);
    forall c | 0 <= c < 10
      ensures ListOk(s', c, s'.heads[c], s'.free[c])
    {
      assert ListOk(s, c, s.heads[c], s.free[c]);
    }
  }

  ghost predicate HeapRun(states: seq<Heap>, events: seq<Event>) {
    && |states| == |events| + 1
    && forall i :: 0 <= i < |events| ==> HeapStep(states[i], events[i], states[i + 1])
  }

  /** Over any run: the invariant holds throughout, and a block that is live and not touched from `i` on
      is still live at the end with the same contents. */
  lemma {:induction false} RunKeepsHeap(states: seq<Heap>, events: seq<Event>, i: nat, q: nat)
    requires HeapRun(states, events) && Inv(states[0]) && i <= |events|
    ensures forall j :: 0 <= j < |states| ==> Inv(states[j])
    ensures q in states[i].live && (forall j :: i <= j < |events| ==> Touched(events[j]) != q) ==>
              q in states[|events|].live && SamePayload(states[i], states[|events|], q)
  {
    hide Inv, HeapStep;
    var n := |events|;
    if n == 0 || i == n {
      if n > 0 {
        RunKeepsHeap(states[..n], events[..n - 1], 0, 0);
        assert forall j :: 0 <= j < n ==> states[j] == states[..n][j];
        StepKeepsHeap(states[n - 1], events[n - 1], states[n]);
      }
      AllPayloadsSame(states[i]);
    } else {
      RunKeepsHeap(states[..n], events[..n - 1], i, q);
      assert forall j :: 0 <= j < n ==> states[j] == states[..n][j];
      assert forall j :: i <= j < n - 1 ==> events[..n - 1][j] == events[j];
      StepKeepsHeap(states[n - 1], events[n - 1], states[n]);
    }
  }

  /** What the invariant says to clients: live blocks overlap neither each other, nor any header, nor any
      node of a free list; headers name size and class. */
  lemma LiveBlocksApart(s: Heap, p: nat, q: nat)
    requires Inv(s) && p in s.live && q in s.blocks && p != q
    ensures p in s.blocks && HeaderOk(s.mem, p, s.blocks[p]) && HeaderOk(s.mem, q, s.blocks[q])
    ensures p + s.blocks[p].words <= q - 2 || q + s.blocks[q].words <= p - 2
    ensures q !in s.live ==> s.blocks[q].cls < 10 && q in s.free[s.blocks[q].cls]
  {
    hide Blocks, Cell, CellsPerPage, Chain, IsCell, PagesUsed, ShapeOk;
    assert Disjoint(p, s.blocks[p], q, s.blocks[q]);
    assert HeaderOk(s.mem, p, s.blocks[p]) && HeaderOk(s.mem, q, s.blocks[q]);
  }

  /** Before the first call. */
  function FreshHeap(mem: seq<u64>, used: set<nat>, total: nat): Heap {
    Heap(mem, seq(10, _ => 0), used, total, map[], {}, seq(10, _ => []), map[])
  }

  lemma FreshHeapOk(mem: seq<u64>, used: set<nat>, total: nat)
    requires PAGE_WORDS * total <= |mem| < 0x1000_0000_0000_0000
    ensures Inv(FreshHeap(mem, used, total))
  {
  }
}
