/** The file store as a value: what the disk, the bitmap, the table and the open handles hold, and
    what each VFS operation may do to them. `HeavenVfs` (Vfs.dfy) is proved to take exactly these
    steps; the theorems about them are in VfsRefinement.dfy and VfsDurability.dfy. */
module VfsModel {
  import opened Bits
  import opened Bytes
  import opened Runs
  import opened RamDisks
  import opened BlockAlloc
  import opened FileTables

  const INITIAL_ALLOC_BLOCKS: nat := 16

  datatype Code = OK | ERROR | BUSY | IOERR | FULL | CANTOPEN
                | IOERR_READ | IOERR_SHORT_READ | IOERR_WRITE | IOERR_FSYNC | IOERR_NOMEM

  /** An open file: its table slot and the cached extent and length. */
  datatype Handle = Handle(slot: nat, startLba: nat, blockCount: nat, byteLength: nat)

  /** What the kernel keeps: the disk with its history, the bitmap and the table in RAM. */
  datatype Store = Store(initial: seq<byte>, disk: seq<byte>, trace: seq<DeviceOp>,
                         words: seq<u64>, table: seq<FileEntry>, bitmapDirty: bool, tableDirty: bool)

  /** The disk is what its history made of its initial contents. */
  ghost predicate DeviceOk(s: Store) {
    && |s.disk| == |s.initial|
    && FitsDisk(s.trace, |s.initial|) && s.disk == Visible(s.initial, s.trace)
  }

  /** Between `s` and `s'` the device wrote only bytes of `lo..hi`. */
  ghost predicate DiskStep(s: Store, s': Store, lo: nat, hi: nat) {
    && s'.initial == s.initial && DeviceOk(s')
    && WroteOnly(s.trace, s'.trace, lo, hi)
    && SameOutside(s.disk, s'.disk, lo, hi)
  }

  ghost predicate SameDisk(s: Store, s': Store) {
    s'.initial == s.initial && s'.disk == s.disk && s'.trace == s.trace
  }

  // ---- Geometry ----

  ghost predicate GeometryOk(g: Superblock) {
    && g.IsValid() && g.Encodable()
    && g.blockSize >= SUPERBLOCK_SIZE && g.blockSize % 8 == 0
    && 1 <= g.bitmapStart && g.bitmapStart + g.bitmapBlocks <= g.tableStart && g.tableStart + 1 == g.dataStart
    && g.dataStart + g.dataBlocks <= g.totalBlocks
    && 8 * WordCount(g) <= Blocks(g.bitmapBlocks, g.blockSize)
    && DiskSize(g) < 0x1_0000_0000_0000_0000
  }

  /** The number of bitmap words: one bit a data block, rounded up. */
  function WordCount(g: Superblock): nat {
    (g.dataBlocks + 63) / 64
  }

  function DiskSize(g: Superblock): nat {
    Blocks(g.totalBlocks, g.blockSize)
  }

  /** Byte position of data block `b`. */
  function At(g: Superblock, b: nat): nat {
    Blocks(g.dataStart + b, g.blockSize)
  }

  /** Byte positions of the bitmap region, of the table block and of what follows it. */
  function BitmapAt(g: Superblock): nat {
    Blocks(g.bitmapStart, g.blockSize)
  }

  function TableAt(g: Superblock): nat {
    Blocks(g.tableStart, g.blockSize)
  }

  function TableEnd(g: Superblock): nat {
    Blocks(g.tableStart + 1, g.blockSize)
  }

  lemma AtMono(g: Superblock, a: nat, b: nat)
    requires a <= b
    ensures At(g, a) <= At(g, b)
  {
    BlocksMono(g.dataStart + a, g.dataStart + b, g.blockSize);
  }

  lemma AtAdd(g: Superblock, a: nat, n: nat)
    ensures At(g, a + n) == At(g, a) + Blocks(n, g.blockSize)
  {
    BlocksAdd(g.dataStart + a, n, g.blockSize);
    assert g.dataStart + (a + n) == g.dataStart + a + n;
  }

  /** Superblock, bitmap, table and data follow each other on the disk. */
  lemma DiskRegions(g: Superblock)
    requires GeometryOk(g)
    ensures SUPERBLOCK_SIZE <= BitmapAt(g)
    ensures BitmapAt(g) + 8 * WordCount(g) <= TableAt(g)
    ensures TableAt(g) + TABLE_SIZE <= TableEnd(g) <= At(g, 0)
    ensures At(g, 0) <= At(g, g.dataBlocks) <= DiskSize(g)
  {
    BlocksMono(1, g.bitmapStart, g.blockSize);
    BlocksAdd(g.bitmapStart, g.bitmapBlocks, g.blockSize);
    BlocksMono(g.bitmapStart + g.bitmapBlocks, g.tableStart, g.blockSize);
    BlocksMono(g.tableStart + 1, g.dataStart, g.blockSize);
    AtMono(g, 0, g.dataBlocks);
    BlocksMono(g.dataStart + g.dataBlocks, g.totalBlocks, g.blockSize);
  }

  // ---- Looking up names ----

  function FindFrom(table: seq<FileEntry>, name: seq<byte>, i: nat): (r: Found)
    requires i <= |table|
    ensures r.FoundAt? ==>
              && i <= r.index < |table| && table[r.index].IsNamed(name)
              && forall j :: i <= j < r.index ==> !table[j].IsNamed(name)
    ensures r.NotFound? ==> forall j :: i <= j < |table| ==> !table[j].IsNamed(name)
    decreases |table| - i
  {
    if i == |table| then NotFound
    else if table[i].IsNamed(name) then FoundAt(i)
    else FindFrom(table, name, i + 1)
  }

  /** The first in-use entry with this name. */
  function Find(table: seq<FileEntry>, name: seq<byte>): Found {
    FindFrom(table, name, 0)
  }

  lemma FindIs(table: seq<FileEntry>, name: seq<byte>, r: Found)
    requires r.FoundAt? ==>
               && r.index < |table| && table[r.index].IsNamed(name)
               && forall j :: 0 <= j < r.index ==> !table[j].IsNamed(name)
    requires r.NotFound? ==> forall j :: 0 <= j < |table| ==> !table[j].IsNamed(name)
    ensures Find(table, name) == r
  {
  }

  // ---- Disk contents ----

  ghost predicate SameOutside(d: seq<byte>, d': seq<byte>, lo: nat, hi: nat) {
    && |d'| == |d|
    && forall i :: 0 <= i < |d| && !(lo <= i < hi) ==> d'[i] == d[i]
  }

  /** `n` bytes of the extent that starts at data block `b`. */
  ghost function ExtentBytes(g: Superblock, disk: seq<byte>, b: nat, n: nat): seq<byte>
    requires At(g, b) + n <= |disk|
  {
    disk[At(g, b)..At(g, b) + n]
  }

  // ---- What each operation may do ----

  /** The handle agrees with its table entry. */
  ghost predicate HandleOk(g: Superblock, s: Store, h: Handle) {
    && h.slot < |s.table| && s.table[h.slot].InUse()
    && h.startLba == g.dataStart + s.table[h.slot].startBlock
    && h.blockCount == s.table[h.slot].blockCount
    && h.byteLength <= Blocks(h.blockCount, g.blockSize)
    && s.table[h.slot].startBlock + h.blockCount <= g.dataBlocks
    && Range(s.table[h.slot].startBlock, h.blockCount) <= Members(s.words)
  }

  datatype OpenResult = Opened(handle: Handle) | OpenFailed(code: Code)

  /** The store after the bitmap's set of used blocks became `used`. */
  ghost predicate BitmapBecame(s: Store, s': Store, used: set<nat>) {
    |s'.words| == |s.words| && Members(s'.words) == used && s'.bitmapDirty
  }

  ghost predicate OpenStep(g: Superblock, s: Store, s': Store, name: seq<byte>, create: bool, r: OpenResult) {
    var used := Members(s.words);
    match Find(s.table, name)
    case FoundAt(i) =>
      && s' == s
      && r == Opened(Handle(i, g.dataStart + s.table[i].startBlock, s.table[i].blockCount, s.table[i].byteLength))
    case NotFound =>
      if !create then s' == s && r == OpenFailed(CANTOPEN)
      else if s' == s then r == OpenFailed(FULL) && NoRun(used, g.dataBlocks, INITIAL_ALLOC_BLOCKS, 1)
      else
        && SameDisk(s, s')
        && exists b: nat :: LowestRun(used, g.dataBlocks, INITIAL_ALLOC_BLOCKS, 1, b)
             && BitmapBecame(s, s', used + Range(b, INITIAL_ALLOC_BLOCKS))
             && Created(g, s, s', name, b, r)
  }

  /** The new file took the first free slot; when there is none the allocated blocks are leaked. */
  ghost predicate Created(g: Superblock, s: Store, s': Store, name: seq<byte>, b: nat, r: OpenResult) {
    if forall i :: 0 <= i < |s.table| ==> s.table[i].InUse() then
      s'.table == s.table && s'.tableDirty == s.tableDirty && r == OpenFailed(FULL)
    else
      && b < 0x1_0000_0000_0000_0000
      && r.Opened? && s'.tableDirty
      && r.handle.slot < |s.table| && !s.table[r.handle.slot].InUse()
      && r.handle == Handle(r.handle.slot, g.dataStart + b, INITIAL_ALLOC_BLOCKS, 0)
      && (forall j :: 0 <= j < r.handle.slot ==> s.table[j].InUse())
      && s'.table == s.table[r.handle.slot := NewEntry(s.table[r.handle.slot], name, b, INITIAL_ALLOC_BLOCKS)]
  }

  ghost predicate CloseStep(s: Store, s': Store, h: Handle) {
    && h.slot < |s.table| && h.byteLength < 0x1_0000_0000_0000_0000
    && s' == s.(table := s.table[h.slot := s.table[h.slot].(byteLength := h.byteLength)], tableDirty := true)
  }

  /** Reading: past the end zeros, otherwise the bytes of the file, zero-filled past its end. */
  ghost predicate ReadStep(g: Superblock, s: Store, h: Handle, amount: nat, offset: nat, buf: seq<byte>, rc: Code) {
    && Blocks(h.startLba, g.blockSize) + h.byteLength <= |s.disk|
    && var content := s.disk[Blocks(h.startLba, g.blockSize)..Blocks(h.startLba, g.blockSize) + h.byteLength];
    if offset >= h.byteLength then rc == IOERR_SHORT_READ && buf == Zeros(amount)
    else if rc == OK then offset + amount <= h.byteLength && buf == content[offset..offset + amount]
    else if rc == IOERR_SHORT_READ then
      offset + amount > h.byteLength && buf == content[offset..] + Zeros(offset + amount - h.byteLength)
    else rc == IOERR || rc == IOERR_NOMEM || rc == IOERR_READ
  }

  /** Blocks of the file that a transfer of `amount` bytes at `offset` touches. */
  function FirstBlock(g: Superblock, offset: nat): nat
    requires g.blockSize > 0
  {
    BlockOf(offset, g.blockSize)
  }

  function BlocksEnd(g: Superblock, offset: nat, amount: nat): nat
    requires g.blockSize > 0 && amount > 0
  {
    BlockOf(offset + amount - 1, g.blockSize) + 1
  }

  /** The file moved to the lowest free run of `needed` blocks, its old blocks copied there and flushed. */
  ghost predicate Relocated(g: Superblock, s: Store, s': Store, h: Handle, h': Handle, needed: u64, b: u64)
    requires h.slot < |s.table|
  {
    var before := s.table[h.slot].startBlock;
    && LowestRun(Members(s.words), g.dataBlocks, needed, 1, b)
    && BitmapBecame(s, s', Members(s.words) + Range(b, needed) - Range(before, h.blockCount))
    && h' == h.(startLba := g.dataStart + b, blockCount := needed)
    && s'.table == s.table[h.slot := s.table[h.slot].(startBlock := b, blockCount := needed)] && s'.tableDirty
    && DiskStep(s, s', At(g, b), At(g, b + needed))
    && At(g, b) + Blocks(h.blockCount, g.blockSize) <= |s.disk|
    && At(g, before) + Blocks(h.blockCount, g.blockSize) <= |s.disk|
    && ExtentBytes(g, s'.disk, b, Blocks(h.blockCount, g.blockSize)) == ExtentBytes(g, s.disk, before, Blocks(h.blockCount, g.blockSize))
    && s'.trace != [] && s'.trace[|s'.trace| - 1] == Flushed
  }

  /** Growth failed after allocating: the blocks are free again, only they were written. */
  ghost predicate GrowthUndone(g: Superblock, s: Store, s': Store, needed: nat, b: nat) {
    && LowestRun(Members(s.words), g.dataBlocks, needed, 1, b)
    && BitmapBecame(s, s', Members(s.words))
    && s'.table == s.table && s'.tableDirty == s.tableDirty
    && DiskStep(s, s', At(g, b), At(g, b + needed))
  }

  ghost predicate GrowStep(g: Superblock, s: Store, s': Store, h: Handle, h': Handle, needed: nat, rc: Code)
    requires h.slot < |s.table|
  {
    match rc
    case OK => needed < 0x1_0000_0000_0000_0000 && exists b: u64 :: Relocated(g, s, s', h, h', needed, b)
    case FULL => s' == s && h' == h && NoRun(Members(s.words), g.dataBlocks, needed, 1)
    case IOERR => s' == s && h' == h
    case _ =>
      && (rc == IOERR_READ || rc == IOERR_WRITE || rc == IOERR_NOMEM || rc == IOERR_FSYNC)
      && h' == h && exists b: nat :: GrowthUndone(g, s, s', needed, b)
  }

  /** Writing inside the extent: exactly `data` is spliced in, or only the addressed blocks are damaged. */
  ghost predicate OverwriteStep(g: Superblock, s: Store, s': Store, h: Handle, h': Handle,
                                data: seq<byte>, offset: nat, rc: Code)
    requires g.blockSize > 0 && |data| > 0
  {
    var at := Blocks(h.startLba, g.blockSize);
    var lo := Blocks(h.startLba + FirstBlock(g, offset), g.blockSize);
    var hi := Blocks(h.startLba + BlocksEnd(g, offset, |data|), g.blockSize);
    && s' == s.(disk := s'.disk, trace := s'.trace)
    && DiskStep(s, s', lo, hi)
    && if rc == OK then
         && at + offset + |data| <= |s.disk|
         && s'.disk == Splice(s.disk, at + offset, data)
         && (forall i :: lo <= i < hi ==> Unflushed(s'.trace, i)) && AllLanded(s.trace, s'.trace, s'.disk)
         && h' == h.(byteLength := if offset + |data| > h.byteLength then offset + |data| else h.byteLength)
       else
         && h' == h && (rc == IOERR || rc == IOERR_NOMEM || rc == IOERR_READ || rc == IOERR_WRITE)
         && (rc == IOERR_WRITE || s' == s)
  }

  ghost predicate WriteStep(g: Superblock, s: Store, s': Store, h: Handle, h': Handle,
                            data: seq<byte>, offset: nat, rc: Code) {
    && g.blockSize > 0 && |data| > 0 && h.slot < |s.table|
    && var needed := BlocksEnd(g, offset, |data|);
    if needed <= h.blockCount then OverwriteStep(g, s, s', h, h', data, offset, rc)
    else
      || (rc != OK && GrowStep(g, s, s', h, h', needed, rc))
      || GrownThenWritten(g, s, s', h, h', data, offset, rc)
  }

  /** First the file is moved to enough blocks, then the data goes into them. */
  ghost predicate GrownThenWritten(g: Superblock, s: Store, s': Store, h: Handle, h': Handle,
                                   data: seq<byte>, offset: nat, rc: Code) {
    && g.blockSize > 0 && |data| > 0 && h.slot < |s.table|
    && exists s1: Store, h1: Handle ::
         && GrowStep(g, s, s1, h, h1, BlocksEnd(g, offset, |data|), OK)
         && OverwriteStep(g, s1, s', h1, h', data, offset, rc)
  }

  /** Blocks kept by a truncation to `size` bytes: at least one. */
  function BlocksKept(g: Superblock, size: nat): nat
    requires g.blockSize > 0
  {
    if size == 0 then 1 else BlockOf(size - 1, g.blockSize) + 1
  }

  ghost predicate TruncateStep(g: Superblock, s: Store, s': Store, h: Handle, h': Handle, size: nat) {
    && g.blockSize > 0 && h.slot < |s.table|
    && var kept := BlocksKept(g, size);
    var e := s.table[h.slot];
    if size > h.byteLength then s' == s && h' == h
    else if kept >= h.blockCount then s' == s && h' == h.(byteLength := size)
    else
      && kept < 0x1_0000_0000_0000_0000 && size < 0x1_0000_0000_0000_0000
      && h' == h.(byteLength := size, blockCount := kept)
      && SameDisk(s, s') && s'.tableDirty
      && s'.table == s.table[h.slot := e.(blockCount := kept, byteLength := size)]
      && BitmapBecame(s, s', Members(s.words) - Range(e.startBlock + kept, h.blockCount - kept))
  }

  ghost predicate DeleteStep(g: Superblock, s: Store, s': Store, name: seq<byte>) {
    match Find(s.table, name)
    case NotFound => s' == s
    case FoundAt(i) =>
      && SameDisk(s, s') && s'.tableDirty
      && s'.table == s.table[i := EMPTY_ENTRY]
      && BitmapBecame(s, s', Members(s.words) - Range(s.table[i].startBlock, s.table[i].blockCount))
  }

  /** A failed sync leaves clean only what reached the disk, the bitmap before the table. */
  ghost predicate SyncFailed(g: Superblock, s: Store, s': Store, table: seq<FileEntry>) {
    && s'.table == table
    && (!s'.bitmapDirty ==>
          if s.bitmapDirty then WordsOnDisk(s'.disk, BitmapAt(g), s.words)
          else SameOutside(s.disk, s'.disk, TableAt(g), TableEnd(g)))
    && (!s'.tableDirty ==> !s'.bitmapDirty && TableOnDisk(s'.disk, TableAt(g), table))
  }

  /** Sync: length recorded, bitmap then table written if dirty, then the device flushed. */
  ghost predicate SyncStep(g: Superblock, s: Store, s': Store, h: Handle, rc: Code) {
    && h.slot < |s.table| && h.byteLength < 0x1_0000_0000_0000_0000
    && var table := s.table[h.slot := s.table[h.slot].(byteLength := h.byteLength)];
    var lo, hi := BitmapAt(g), TableEnd(g);
    && s'.words == s.words
    && DiskStep(s, s', lo, hi)
    && (s'.bitmapDirty ==> s.bitmapDirty)
    && if rc == OK then
         && s'.table == table && !s'.bitmapDirty && !s'.tableDirty
         && (s.bitmapDirty ==> WordsOnDisk(s'.disk, lo, s.words))
         && (!s.bitmapDirty ==> SameOutside(s.disk, s'.disk, TableAt(g), hi))
         && TableOnDisk(s'.disk, TableAt(g), table)
         && s'.trace != [] && s'.trace[|s'.trace| - 1] == Flushed
       else
         && rc == IOERR_FSYNC
         && (s' == s || SyncFailed(g, s, s', table))
  }
}
