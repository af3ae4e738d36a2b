/** The kernel heap as a value: memory, free lists and ownership, and what each call does to them.

    Addresses count 8-byte words; a block's pointer is the word after its two-word header. The ghost
    part (`blocks`, `live`, `free`, `slabs`) says who owns what; `SlabAllocator` (Heap.dfy) keeps it
    in step with memory, and the theorems about arbitrary runs are in HeapRuns.dfy. */
module HeapModel {
  import opened Bits
  import opened Bytes
  import opened Runs

  const PAGE_WORDS: nat := 512
  const HEADER_SIZE: nat := 16
  const LARGE_ALLOC: nat := 0xFF
  const SLAB_CLASSES: seq<nat> := [8, 16, 32, 64, 128, 256, 512, 1024, 2048, 4096]

  /** The largest size for which `Layout::from_size_align(size, 8)` is a layout. */
  const MAX_LAYOUT: nat := 0x7FFF_FFFF_FFFF_FFF8

  function SlabWords(cls: nat): (n: nat)
    requires cls < 10
    ensures n > 0
  {
    SLAB_CLASSES[cls] / 8
  }

  /** Words of one cell: header and payload. */
  function EntryWords(cls: nat): (n: nat)
    requires cls < 10
    ensures n > 2
  {
    SlabWords(cls) + 2
  }

  /** Cells carved from one page; none in the largest class, whose cell exceeds the page. */
  function CellsPerPage(cls: nat): nat
    requires cls < 10
  {
    4096 / (SLAB_CLASSES[cls] + HEADER_SIZE)
  }

  /** The smallest class that holds `size` bytes, 10 if there is none. */
  function ClassFor(size: nat): (cls: nat)
    ensures cls <= 10
    ensures cls < 10 ==> SLAB_CLASSES[cls] >= size
    ensures forall i :: 0 <= i < cls ==> SLAB_CLASSES[i] < size
  {
    FirstClass(size, 0)
  }

  function FirstClass(size: nat, from: nat): (cls: nat)
    requires from <= 10
    ensures from <= cls <= 10
    ensures cls < 10 ==> SLAB_CLASSES[cls] >= size
    ensures forall i :: from <= i < cls ==> SLAB_CLASSES[i] < size
    decreases 10 - from
  {
    if from == 10 then 10
    else if SLAB_CLASSES[from] >= size then from
    else FirstClass(size, from + 1)
  }

  datatype Block = Block(cls: nat, words: nat)

  datatype Heap = Heap(
    mem: seq<u64>, heads: seq<u64>, used: set<nat>, total: nat,
    blocks: map<nat, Block>, live: set<nat>, free: seq<seq<nat>>, slabs: map<nat, nat>)

  // ---- Invariants ----

  /** The header in memory names the block's size and class. */
  ghost predicate HeaderOk(mem: seq<u64>, p: nat, b: Block) {
    2 <= p && p + b.words <= |mem| && mem[p - 2] == 8 * b.words && mem[p - 1] % 256 == b.cls
  }

  ghost predicate ShapeOk(p: nat, b: Block) {
    || (b.cls <= 8 && b.words == SlabWords(b.cls))
    || (b.cls == LARGE_ALLOC && p % PAGE_WORDS == 2 && b.words > 0 && (b.words + 2) % PAGE_WORDS == 0)
  }

  /** Every page that header or payload touches is allocated. */
  ghost predicate PagesUsed(used: set<nat>, p: nat, b: Block) {
    forall k: nat :: PAGE_WORDS * k < p + b.words && p < PAGE_WORDS * k + PAGE_WORDS + 2 ==> k in used
  }

  /** Header and payload of two blocks do not overlap. */
  ghost predicate Disjoint(p: nat, b: Block, q: nat, c: Block) {
    p + b.words + 2 <= q || q + c.words + 2 <= p
  }

  /** `head` leads through memory along `list` to null. */
  ghost predicate Chain(mem: seq<u64>, head: nat, list: seq<nat>)
    decreases |list|
  {
    if list == [] then head == 0
    else head == list[0] && 0 < head < |mem| && Chain(mem, mem[head], list[1..])
  }

  /** The `i`th cell of the page `k`. */
  function Cell(cls: nat, k: nat, i: nat): nat
    requires cls < 10
  {
    PAGE_WORDS * k + Blocks(i, EntryWords(cls)) + 2
  }

  ghost predicate IsCell(slabs: map<nat, nat>, cls: nat, p: nat)
    requires cls < 10
  {
    exists k, i: nat :: k in slabs && slabs[k] == cls && i < CellsPerPage(cls) && p == Cell(cls, k, i)
  }

  ghost predicate BlocksOk(s: Heap) {
    && (forall p :: p in s.blocks ==> HeaderOk(s.mem, p, s.blocks[p]) && ShapeOk(p, s.blocks[p]))
    && (forall p :: p in s.blocks ==> PagesUsed(s.used, p, s.blocks[p]))
    && (forall p, q :: p in s.blocks && q in s.blocks && p != q ==> Disjoint(p, s.blocks[p], q, s.blocks[q]))
  }

  /** A free list holds distinct free blocks of its class and is threaded through them. */
  ghost predicate ListOk(s: Heap, cls: nat, head: nat, list: seq<nat>) {
    && Chain(s.mem, head, list)
    && (forall i :: 0 <= i < |list| ==> list[i] in s.blocks && s.blocks[list[i]].cls == cls && list[i] !in s.live)
    && (forall i, j :: 0 <= i < j < |list| ==> list[i] != list[j])
  }

  ghost predicate ListsOk(s: Heap) {
    && |s.heads| == 10 && |s.free| == 10
    && forall c :: 0 <= c < 10 ==> ListOk(s, c, s.heads[c], s.free[c])
  }

  /** A block that is not live is in the free list of its class. */
  ghost predicate Accounted(s: Heap) {
    && s.live <= s.blocks.Keys && |s.free| == 10
    && forall p :: p in s.blocks && p !in s.live ==> s.blocks[p].cls < 10 && p in s.free[s.blocks[p].cls]
  }

  /** The blocks of a class are exactly the cells carved for it. */
  ghost predicate CellsOk(s: Heap) {
    && (forall k :: k in s.slabs ==> s.slabs[k] < 9)
    && (forall p, c :: p in s.blocks && s.blocks[p].cls == c && c < 10 ==> IsCell(s.slabs, c, p))
    && (forall k, i: nat :: k in s.slabs && i < CellsPerPage(s.slabs[k]) ==>
          Cell(s.slabs[k], k, i) in s.blocks && s.blocks[Cell(s.slabs[k], k, i)].cls == s.slabs[k])
  }

  ghost predicate MemoryOk(s: Heap) {
    PAGE_WORDS * s.total <= |s.mem| < 0x1000_0000_0000_0000 && |s.heads| == |s.free| == 10
  }

  ghost predicate Inv(s: Heap) {
    MemoryOk(s) && BlocksOk(s) && ListsOk(s) && Accounted(s) && CellsOk(s)
  }

  /** What a client sees of its block. */
  ghost function Payload(s: Heap, p: nat): seq<u64>
    requires p in s.blocks && p + s.blocks[p].words <= |s.mem|
  {
    s.mem[p..p + s.blocks[p].words]
  }

  // ---- What the calls do ----

  /** Take the first cell of a free list. */
  ghost function Pop(s: Heap, cls: nat): Heap
    requires cls < |s.heads| == |s.free| && s.free[cls] != [] && s.heads[cls] < |s.mem|
  {
    s.(heads := s.heads[cls := s.mem[s.heads[cls]]],
       free := s.free[cls := s.free[cls][1..]],
       live := s.live + {s.free[cls][0]})
  }

  function LowByte(w: u64, b: nat): u64
    requires b < 256
  {
    w - w % 256 + b
  }

  /** Memory after a cell's header and link have been written. */
  function WriteCell(mem: seq<u64>, p: nat, cls: nat, next: u64): (m: seq<u64>)
    requires cls < 10 && 2 <= p < |mem|
    ensures |m| == |mem|
  {
    mem[p - 2 := SLAB_CLASSES[cls]][p - 1 := LowByte(mem[p - 1], cls)][p := next]
  }

  datatype Carved = Carved(mem: seq<u64>, head: u64)

  /** Memory and list head after carving the first `n` cells of page `k`. */
  function Carve(mem: seq<u64>, head: u64, cls: nat, k: nat, n: nat): (r: Carved)
    requires cls < 10 && PAGE_WORDS * k + Blocks(n, EntryWords(cls)) <= |mem| < 0x1000_0000_0000_0000
    ensures |r.mem| == |mem|
  {
    if n == 0 then Carved(mem, head)
    else
      var r := Carve(mem, head, cls, k, n - 1);
      var p := Cell(cls, k, n - 1);
      Carved(WriteCell(r.mem, p, cls, r.head), p)
  }

  ghost function Cells(cls: nat, k: nat, n: nat): seq<nat>
    requires cls < 10
  {
    if n == 0 then [] else [Cell(cls, k, n - 1)] + Cells(cls, k, n - 1)
  }

  ghost function CellBlocks(cls: nat, k: nat): map<nat, Block>
    requires cls < 10
  {
    map p: nat | p in Cells(cls, k, CellsPerPage(cls)) :: Block(cls, SlabWords(cls))
  }

  /** Turn page `k` into cells of a class. */
  ghost function Refill(s: Heap, cls: nat, k: nat): Heap
    requires cls < 9 && |s.heads| == |s.free| == 10
    requires PAGE_WORDS * k + PAGE_WORDS <= |s.mem| < 0x1000_0000_0000_0000
  {
    CellsFit(cls);
    var n := CellsPerPage(cls);
    var r := Carve(s.mem, s.heads[cls], cls, k, n);
    s.(mem := r.mem, heads := s.heads[cls := r.head],
       used := s.used + {k}, slabs := s.slabs[k := cls],
       blocks := s.blocks + CellBlocks(cls, k),
       free := s.free[cls := Cells(cls, k, n) + s.free[cls]])
  }

  lemma CellsFit(cls: nat)
    requires cls < 10
    ensures Blocks(CellsPerPage(cls), EntryWords(cls)) <= PAGE_WORDS
  {
    var n, e := CellsPerPage(cls), EntryWords(cls);
    BlocksIs(n, e);
    assert SLAB_CLASSES[cls] + HEADER_SIZE == 8 * e;
    assert n * (8 * e) <= 4096;
    assert n * (8 * e) == 8 * (n * e);
  }

  /** Give the pages from `k` on to one large block. */
  ghost function TakeLarge(s: Heap, k: nat, pages: nat): Heap
    requires pages > 0 && PAGE_WORDS * k + PAGE_WORDS * pages <= |s.mem| < 0x1000_0000_0000_0000
  {
    var base := PAGE_WORDS * k;
    var words := PAGE_WORDS * pages - 2;
    s.(mem := s.mem[base := 8 * words][base + 1 := LowByte(s.mem[base + 1], LARGE_ALLOC)],
       used := s.used + Range(k, pages),
       blocks := s.blocks[base + 2 := Block(LARGE_ALLOC, words)],
       live := s.live + {base + 2})
  }

  function AtLeast(a: nat, b: nat): nat {
    if a < b then b else a
  }

  function PagesFor(size: nat): nat {
    (size + HEADER_SIZE + 4095) / 4096
  }

  /** `heavenos_malloc`: null, or a block of the size's class, or whole pages. */
  ghost predicate MallocStep(s: Heap, s': Heap, bytes: nat, r: nat) {
    var size := AtLeast(bytes, 8);
    var c := ClassFor(size);
    if bytes == 0 || bytes > MAX_LAYOUT then s' == s && r == 0
    else if c < 10 then SlabStep(s, s', c, r)
    else if NoRun(s.used, s.total, PagesFor(size), 1) then s' == s && r == 0
    else LargeStep(s, s', PagesFor(size), r)
  }

  ghost predicate SlabStep(s: Heap, s': Heap, c: nat, r: nat) {
    && c < 10 && |s.heads| == |s.free| == 10
    && if s.free[c] != [] then s.heads[c] < |s.mem| && s' == Pop(s, c) && r == s.free[c][0]
       else if c == 9 || NoRun(s.used, s.total, 1, 1) then s' == s && r == 0
       else exists k: nat :: RefillStep(s, s', c, k, r)
  }

  ghost predicate RefillStep(s: Heap, s': Heap, c: nat, k: nat, r: nat) {
    && c < 9 && |s.heads| == |s.free| == 10 && LowestRun(s.used, s.total, 1, 1, k)
    && PAGE_WORDS * k + PAGE_WORDS <= |s.mem| < 0x1000_0000_0000_0000
    && var s1 := Refill(s, c, k);
    s1.free[c] != [] && s1.heads[c] < |s1.mem| && s' == Pop(s1, c) && r == s1.free[c][0]
  }

  ghost predicate LargeStep(s: Heap, s': Heap, pages: nat, r: nat) {
    exists k: nat :: TakesPages(s, s', pages, k, r)
  }

  ghost predicate TakesPages(s: Heap, s': Heap, pages: nat, k: nat, r: nat) {
    && pages > 0 && LowestRun(s.used, s.total, pages, 1, k)
    && PAGE_WORDS * k + PAGE_WORDS * pages <= |s.mem| < 0x1000_0000_0000_0000
    && s' == TakeLarge(s, k, pages) && r == PAGE_WORDS * k + 2
  }

  /** `heavenos_free` of a live block: whole pages go back, a cell becomes the head of its list. */
  ghost function FreeBlock(s: Heap, p: nat): Heap
    requires p in s.blocks && 2 <= p < |s.mem| < 0x1000_0000_0000_0000 && |s.heads| == |s.free| == 10
    requires s.blocks[p].cls < 10 || s.blocks[p].cls == LARGE_ALLOC
  {
    var b := s.blocks[p];
    if b.cls == LARGE_ALLOC then
      s.(used := s.used - Range((p - 2) / PAGE_WORDS, (b.words + 2) / PAGE_WORDS), blocks := s.blocks - {p}, live := s.live - {p})
    else
      s.(mem := s.mem[p := s.heads[b.cls]], heads := s.heads[b.cls := p],
         free := s.free[b.cls := [p] + s.free[b.cls]], live := s.live - {p})
  }

  ghost predicate FreeStep(s: Heap, s': Heap, p: nat) {
    && p in s.live && p in s.blocks && 2 <= p < |s.mem| < 0x1000_0000_0000_0000 && |s.heads| == |s.free| == 10
    && (s.blocks[p].cls < 10 || s.blocks[p].cls == LARGE_ALLOC)
    && s' == FreeBlock(s, p)
  }

  /** Copy `n` words from `p` to `q`. */
  function CopyWords(mem: seq<u64>, p: nat, q: nat, n: nat): (m: seq<u64>)
    requires p + n <= |mem| && q + n <= |mem|
    ensures |m| == |mem| && m[q..q + n] == mem[p..p + n]
    ensures forall i :: 0 <= i < |mem| ==> m[i] == if q <= i < q + n then mem[p + (i - q)] else mem[i]
  {
    mem[..q] + mem[p..p + n] + mem[q + n..]
  }

  /** `heavenos_realloc`. */
  ghost predicate ReallocStep(s: Heap, s': Heap, p: nat, bytes: nat, r: nat) {
    if p == 0 then MallocStep(s, s', bytes, r)
    else if bytes == 0 then r == 0 && FreeStep(s, s', p)
    else
      && p in s.live && p in s.blocks
      && if bytes <= 8 * s.blocks[p].words then s' == s && r == p
         else exists s1 :: MallocStep(s, s1, bytes, r) && MovedStep(s1, s', p, r)
  }

  /** The rest of a growing realloc, after its allocation gave `q`. */
  ghost predicate MovedStep(s: Heap, s': Heap, p: nat, q: nat) {
    if q == 0 then s' == s
    else
      && p in s.blocks && p + s.blocks[p].words <= |s.mem| && q + s.blocks[p].words <= |s.mem|
      && FreeStep(s.(mem := CopyWords(s.mem, p, q, s.blocks[p].words)), s', p)
  }
}
