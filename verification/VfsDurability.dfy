/** What survives: mounting after a sync rebuilds the store, and losing power during a write. */
module VfsDurability {
  import opened Bits
  import opened Bytes
  import opened Runs
  import opened RamDisks
  import opened BlockAlloc
  import opened FileTables
  import opened VfsModel
  import opened VfsInvariant
  import opened VfsRefinement

  // ---- Mounting ----

  /** What `BlockAllocator.Load` and `FileTable.Load` make of a disk. */
  ghost predicate MountsAs(disk: seq<byte>, blockSize: nat, sb: Superblock, words: seq<u64>, freeCount: nat, table: seq<FileEntry>) {
    && SUPERBLOCK_SIZE <= blockSize <= |disk| && sb == DecodeSuperblock(disk[..blockSize])
    && LoadedFrom(words, freeCount, disk, blockSize)
    && 1 <= sb.dataStart && Blocks(sb.dataStart - 1, blockSize) + TABLE_SIZE <= |disk|
    && table == DecodeTable(disk[Blocks(sb.dataStart - 1, blockSize)..Blocks(sb.dataStart - 1, blockSize) + TABLE_SIZE])
  }

  /** The superblock, bitmap words and table that a disk holds. */
  ghost predicate MetadataOnDisk(g: Superblock, disk: seq<byte>, words: seq<u64>, table: seq<FileEntry>) {
    && g.blockSize <= |disk| && SUPERBLOCK_SIZE <= g.blockSize && disk[..SUPERBLOCK_SIZE] == EncodeSuperblock(g)
    && WordsOnDisk(disk, BitmapAt(g), words)
    && TableOnDisk(disk, TableAt(g), table)
  }

  /** Mounting gives back exactly the geometry, bitmap, free count and entries on the disk. */
  lemma MountRebuilds(g: Superblock, disk: seq<byte>, words: seq<u64>, table: seq<FileEntry>,
                      sb: Superblock, words': seq<u64>, freeCount: nat, table': seq<FileEntry>)
    requires GeometryOk(g) && MetadataOnDisk(g, disk, words, table) && |table| == MAX_ENTRIES
    requires |words| == WordCount(g) && Members(words) <= Range(0, g.dataBlocks)
    requires MountsAs(disk, g.blockSize, sb, words', freeCount, table')
    ensures sb == g && words' == words && table' == table && freeCount == g.dataBlocks - |Members(words)|
  {
    hide Blocks, EncodeSuperblock, DecodeSuperblock, EncodeTable, DecodeTable, RegionStored, WordsReadBack, OnesIn, Has, Range;
    SliceOfSlice(disk, 0, g.blockSize, 0, SUPERBLOCK_SIZE);
    DecodeEncodedSuperblock(g, disk[..g.blockSize]);
    BlocksIs(g.bitmapStart, g.blockSize);
    BlocksIs(g.bitmapBlocks, g.blockSize);
    ReadFlushedWords(disk, BitmapAt(g), Blocks(g.bitmapBlocks, g.blockSize), words, words');
    DecodeEncodedTable(table);
    OnesCountMembers(words);
    SubsetSize(Members(words), Range(0, g.dataBlocks));
    RangeSize(0, g.dataBlocks);
  }

  /** A store without unflushed metadata is what mounting its disk gives. */
  lemma CleanStoreMounts(g: Superblock, s: Store, sb: Superblock, words: seq<u64>, freeCount: nat, table: seq<FileEntry>)
    requires StoreOk(g, s) && CleanOk(g, s) && |s.table| == MAX_ENTRIES && !s.bitmapDirty && !s.tableDirty
    requires MountsAs(s.disk, g.blockSize, sb, words, freeCount, table)
    ensures sb == g && words == s.words && table == s.table && freeCount == g.dataBlocks - |Members(s.words)|
  {
    MountRebuilds(g, s.disk, s.words, s.table, sb, words, freeCount, table);
  }

  /** The system after a restart: same store, no handles. */
  function Restarted(s: Sys): Sys {
    Sys(s.store, map[], s.leaked)
  }

  /** After a successful sync nothing can be lost, and mounting rebuilds bitmap, free count and entries exactly. */
  lemma SyncThenMount(g: Superblock, s: Sys, slot: nat, s': Sys, image: seq<byte>,
                      sb: Superblock, words: seq<u64>, freeCount: nat, table: seq<FileEntry>)
    requires Inv(g, s) && SysStep(g, s, Sync(slot, OK), s')
    requires CrashImage(s'.store.initial, s'.store.trace, image)
    requires MountsAs(image, g.blockSize, sb, words, freeCount, table)
    ensures image == s'.store.disk && sb == g && words == s'.store.words && table == s'.store.table
    ensures freeCount == g.dataBlocks - |Members(s'.store.words)|
  {
    hide MountsAs, Refines;
    StepKeepsInv(g, s, Sync(slot, OK), s');
    NothingToLose(s'.store, image);
    CleanStoreMounts(g, s'.store, sb, words, freeCount, table);
  }

  lemma NothingToLose(s: Store, image: seq<byte>)
    requires DeviceOk(s) && s.trace != [] && s.trace[|s.trace| - 1].Flushed?
    requires CrashImage(s.initial, s.trace, image)
    ensures image == s.disk
  {
  }

  /** When a file has moved, no power loss can take the copy: the table may point to it. */
  lemma MovedCopyIsDurable(g: Superblock, s: Store, s': Store, h: Handle, h': Handle, needed: nat, image: seq<byte>)
    requires h.slot < |s.table| && DeviceOk(s') && GrowStep(g, s, s', h, h', needed, OK)
    requires CrashImage(s'.initial, s'.trace, image)
    ensures var from, to, n := s.table[h.slot].startBlock, s'.table[h.slot].startBlock, Blocks(h.blockCount, g.blockSize);
            && At(g, from) + n <= |s.disk| && At(g, to) + n <= |image|
            && ExtentBytes(g, image, to, n) == ExtentBytes(g, s.disk, from, n)
  {
    hide Blocks, Visible, FitsDisk, LowestRun, BitmapBecame, WroteOnly, CrashImage, DeviceOk, At;
    NothingToLose(s', image);
  }

  /** After a successful sync and a restart, the synced file and every closed file show the same bytes. */
  lemma SyncThenRestart(g: Superblock, s: Sys, slot: nat, s': Sys, name: seq<byte>)
    requires Inv(g, s) && SysStep(g, s, Sync(slot, OK), s')
    ensures Inv(g, Restarted(s'))
    ensures (match Find(s.store.table, name)
             case NotFound => true
             case FoundAt(i) => i == slot || i !in s.open)
            ==> View(g, Restarted(s'), name) == View(g, s, name)
  {
    hide Visible, FitsDisk, CleanOk, EntryOk, Apart, Owned, Blocks;
    StepRefines(g, s, Sync(slot, OK), s');
    assert View(g, s', name) == View(g, s, name);
    SyncKeepsNames(g, s, slot, s', name);
  }

  lemma SyncKeepsNames(g: Superblock, s: Sys, slot: nat, s': Sys, name: seq<byte>)
    requires FilesOk(g, s) && FilesOk(g, s') && SysStep(g, s, Sync(slot, OK), s')
    ensures Find(s'.store.table, name) == Find(s.store.table, name)
    ensures slot in s'.open && s'.store.table[slot].byteLength == s'.open[slot].byteLength
  {
    match Find(s.store.table, name) {
      case FoundAt(i) => FindUnique(g, s'.store.table, i);
      case NotFound =>
        forall j | 0 <= j < |s'.store.table|
          ensures !s'.store.table[j].IsNamed(name)
        {
          assert s'.store.table[j].IsNamed(name) == s.store.table[j].IsNamed(name);
        }
        FindIs(s'.store.table, name, NotFound);
    }
  }

  // ---- Losing power ----

  /** Nothing is waiting: metadata is on the disk and the device was just flushed. */
  ghost predicate Synced(g: Superblock, s: Sys) {
    && Inv(g, s) && !s.store.bitmapDirty && !s.store.tableDirty
    && s.store.trace != [] && s.store.trace[|s.store.trace| - 1].Flushed?
  }

  /** The bytes of file `i` as the table entry records them. */
  ghost predicate RecordedBytesKept(g: Superblock, table: seq<FileEntry>, disk: seq<byte>, disk': seq<byte>, i: nat)
    requires i < |table|
  {
    forall p :: At(g, table[i].startBlock) <= p < At(g, table[i].startBlock) + table[i].byteLength && p < |disk| && p < |disk'|
      ==> disk'[p] == disk[p]
  }

  /** The image mounts to the metadata of `s`, and every file recorded there has its bytes. */
  ghost predicate KeepsFiles(g: Superblock, s: Store, image: seq<byte>) {
    && |image| == |s.disk|
    && MetadataOnDisk(g, image, s.words, s.table)
    && forall i :: 0 <= i < |s.table| && s.table[i].InUse() ==> RecordedBytesKept(g, s.table, s.disk, image, i)
  }

  /** Whatever a power loss after `ops` leaves on the disk, mounting finds the files recorded in `s`. */
  ghost predicate CrashSafe(g: Superblock, s: Store, ops: seq<DeviceOp>) {
    && FitsDisk(ops, |s.initial|)
    && forall image :: CrashImage(s.initial, ops, image) ==> KeepsFiles(g, s, image)
  }

  /** Writes confined to bytes that are neither metadata nor recorded file contents are crash safe. */
  lemma ConfinedIsSafe(g: Superblock, s: Sys, ops: seq<DeviceOp>, lo: nat, hi: nat)
    requires Synced(g, s) && FitsDisk(ops, |s.store.initial|) && WroteOnly(s.store.trace, ops, lo, hi) && At(g, 0) <= lo
    requires forall i :: 0 <= i < |s.store.table| && s.store.table[i].InUse() ==> Outside(g, s.store.table[i], lo, hi)
    ensures CrashSafe(g, s.store, ops)
  {
    forall image | CrashImage(s.store.initial, ops, image)
      ensures KeepsFiles(g, s.store, image)
    {
      forall p: nat | p < |image| && !(lo <= p < hi)
        ensures image[p] == s.store.disk[p]
      {
        CrashOutsideUnchanged(s.store.initial, s.store.trace, ops, lo, hi, p);
      }
      MetadataSurvives(g, s.store, image, lo, hi);
      forall i | 0 <= i < |s.store.table| && s.store.table[i].InUse()
        ensures RecordedBytesKept(g, s.store.table, s.store.disk, image, i)
      {
        assert Outside(g, s.store.table[i], lo, hi);
      }
    }
  }

  /** The recorded bytes of the entry are not in `lo..hi`. */
  ghost predicate Outside(g: Superblock, e: FileEntry, lo: nat, hi: nat) {
    At(g, e.startBlock) + e.byteLength <= lo || hi <= At(g, e.startBlock)
  }

  lemma MetadataSurvives(g: Superblock, s: Store, image: seq<byte>, lo: nat, hi: nat)
    requires StoreOk(g, s) && CleanOk(g, s) && !s.bitmapDirty && !s.tableDirty && |s.table| == MAX_ENTRIES
    requires SameOutside(s.disk, image, lo, hi) && At(g, 0) <= lo
    ensures MetadataOnDisk(g, image, s.words, s.table)
  {
    hide Blocks;
    DiskRegions(g);
    BlockFits(g);
    var at := TableAt(g);
    assert image[..SUPERBLOCK_SIZE] == s.disk[..SUPERBLOCK_SIZE];
    assert image[at..at + TABLE_SIZE] == s.disk[at..at + TABLE_SIZE];
  }

  lemma BlockFits(g: Superblock)
    requires GeometryOk(g)
    ensures g.blockSize <= DiskSize(g)
  {
    BlocksMono(1, g.totalBlocks, g.blockSize);
  }

  /** From a just-synced state, at every point of a write that grows the file and whichever way it
      ends, a power loss leaves a disk that mounts to the files recorded before the write. */
  lemma GrowingWriteIsCrashSafe(g: Superblock, s: Sys, slot: nat, data: seq<byte>, offset: nat, rc: Code, s': Sys, ops: seq<DeviceOp>)
    requires Synced(g, s) && SysStep(g, s, Write(slot, data, offset, rc), s')
    requires BlocksEnd(g, offset, |data|) > s.open[slot].blockCount
    requires s.store.trace <= ops <= s'.store.trace
    ensures CrashSafe(g, s.store, ops)
  {
    hide Blocks, BlockOf, WroteOnly, CrashSafe, FitsDisk, Visible, WriteStep, EntryOk, Apart, Owned;
    StepKeepsInv(g, s, Write(slot, data, offset, rc), s');
    var b, n := GrowthWritesFreeRun(g, s, slot, data, offset, rc, s');
    PrefixWroteOnly(s.store.trace, ops, s'.store.trace, At(g, b), At(g, b + n), |s.store.initial|);
    FreeRunIsSafe(g, s, ops, b, n);
  }

  lemma PrefixWroteOnly(a: seq<DeviceOp>, b: seq<DeviceOp>, c: seq<DeviceOp>, lo: nat, hi: nat, size: nat)
    requires a <= b <= c && WroteOnly(a, c, lo, hi) && FitsDisk(c, size)
    ensures WroteOnly(a, b, lo, hi) && FitsDisk(b, size)
  {
    assert forall k :: 0 <= k < |b| ==> b[k] == c[k];
  }

  /** Writes confined to a free run are crash safe. */
  lemma FreeRunIsSafe(g: Superblock, s: Sys, ops: seq<DeviceOp>, b: nat, n: nat)
    requires Synced(g, s) && FitsDisk(ops, |s.store.initial|) && WroteOnly(s.store.trace, ops, At(g, b), At(g, b + n))
    requires FreeRun(Members(s.store.words), b, n) && n >= 1
    ensures CrashSafe(g, s.store, ops)
  {
    hide Blocks, WroteOnly, CrashSafe, FitsDisk, Visible;
    AtMono(g, 0, b);
    forall i | 0 <= i < |s.store.table| && s.store.table[i].InUse()
      ensures Outside(g, s.store.table[i], At(g, b), At(g, b + n))
    {
      FreeRunApart(g, s.store.table, Members(s.store.words), s.leaked, i, b, n);
      ExtentInDisk(g, s.store.table[i], s.store.table[i].byteLength);
    }
    ConfinedIsSafe(g, s, ops, At(g, b), At(g, b + n));
  }

  /** A growing write touches only blocks that were free. */
  lemma GrowthWritesFreeRun(g: Superblock, s: Sys, slot: nat, data: seq<byte>, offset: nat, rc: Code, s': Sys) returns (b: nat, n: nat)
    requires Inv(g, s) && SysStep(g, s, Write(slot, data, offset, rc), s')
    requires BlocksEnd(g, offset, |data|) > s.open[slot].blockCount
    ensures n == BlocksEnd(g, offset, |data|) >= 1 && FreeRun(Members(s.store.words), b, n)
    ensures s'.store.trace == s.store.trace || LowestRun(Members(s.store.words), g.dataBlocks, n, 1, b)
    ensures WroteOnly(s.store.trace, s'.store.trace, At(g, b), At(g, b + n)) && s'.store.initial == s.store.initial
  {
    hide Blocks, BlockOf, Visible, EntryOk, Apart, Owned, CleanOk, Inv, GrowStep, GrownThenWritten, At, WroteOnly, Range;
    n := BlocksEnd(g, offset, |data|);
    if rc != OK && GrowStep(g, s.store, s'.store, s.open[slot], s'.open[slot], n, rc) {
      InvBounds(g, s);
      b := FailedGrowthWritesFreeRun(g, s.store, s'.store, s.open[slot], s'.open[slot], n, rc);
    } else {
      b := GrownWritesFreeRun(g, s, slot, data, offset, rc, s');
    }
  }

  ghost predicate StoreInBounds(g: Superblock, s: Store) {
    Members(s.words) <= Range(0, g.dataBlocks)
  }

  lemma InvBounds(g: Superblock, s: Sys)
    requires Inv(g, s)
    ensures StoreInBounds(g, s.store)
  {
  }

  lemma FailedGrowthWritesFreeRun(g: Superblock, s: Store, s': Store, h: Handle, h': Handle, n: nat, rc: Code) returns (b: nat)
    requires StoreInBounds(g, s) && h.slot < |s.table| && rc != OK && GrowStep(g, s, s', h, h', n, rc)
    ensures FreeRun(Members(s.words), b, n) && WroteOnly(s.trace, s'.trace, At(g, b), At(g, b + n)) && s'.initial == s.initial
    ensures s'.trace == s.trace || LowestRun(Members(s.words), g.dataBlocks, n, 1, b)
  {
    hide Blocks, At;
    if s' == s {
      b := g.dataBlocks;
    } else {
      b :| GrowthUndone(g, s, s', n, b);
    }
  }

  lemma GrownWritesFreeRun(g: Superblock, s: Sys, slot: nat, data: seq<byte>, offset: nat, rc: Code, s': Sys) returns (b: nat)
    requires Inv(g, s) && slot in s.open && slot in s'.open
    requires GrownThenWritten(g, s.store, s'.store, s.open[slot], s'.open[slot], data, offset, rc)
    requires s'.open == s.open[slot := s'.open[slot]] && s'.leaked == s.leaked
    requires BlocksEnd(g, offset, |data|) > s.open[slot].blockCount
    ensures LowestRun(Members(s.store.words), g.dataBlocks, BlocksEnd(g, offset, |data|), 1, b)
    ensures WroteOnly(s.store.trace, s'.store.trace, At(g, b), At(g, b + BlocksEnd(g, offset, |data|)))
    ensures s'.store.initial == s.store.initial
  {
    hide Blocks, BlockOf, BlocksEnd, FirstBlock, At, Visible, Apart, Owned, CleanOk, WroteOnly, OverwriteStep, FitsDisk, ExtentBytes,
         Members, Range, GeometryOk, EntryOk, Accounted, WordsOnDisk, TableOnDisk, EncodeSuperblock;
    var s1;
    var n := BlocksEnd(g, offset, |data|);
    s1, b := GrownSystem(g, s, slot, data, offset, rc, s');
    GrowKeepsInv(g, s, slot, n, b, s1);
    OverwriteStaysInside(g, s1, s1.store.table[slot], slot, data, offset, rc, s');
    WroteOnlyTransitive(s.store.trace, s1.store.trace, s'.store.trace, At(g, b), At(g, b + n));
  }

  lemma OverwriteStaysInside(g: Superblock, s: Sys, e: FileEntry, slot: nat, data: seq<byte>, offset: nat, rc: Code, s': Sys)
    requires FilesOk(g, s) && slot in s.open && slot in s'.open && e == s.store.table[slot]
    requires |data| > 0 && BlocksEnd(g, offset, |data|) <= e.blockCount
    requires OverwriteStep(g, s.store, s'.store, s.open[slot], s'.open[slot], data, offset, rc)
    ensures WroteOnly(s.store.trace, s'.store.trace, At(g, e.startBlock), At(g, e.startBlock + e.blockCount))
    ensures s'.store.initial == s.store.initial
  {
    hide Blocks, BlockOf, BlocksEnd, FirstBlock, At, Apart, WroteOnly, OverwriteStep;
    var lo, hi := OverwriteFrame(g, s.store, s'.store, s.open[slot], s'.open[slot], data, offset, rc);
    WroteOnlyWidens(s.store.trace, s'.store.trace, lo, hi, At(g, e.startBlock), At(g, e.startBlock + e.blockCount));
  }

  /** Which successful writes are crash safe from a just-synced state: those that grow the file, and
      those that start in a block past the recorded length. */
  lemma WriteCrashSafeIff(g: Superblock, s: Sys, slot: nat, data: seq<byte>, offset: nat, s': Sys)
    requires Synced(g, s) && SysStep(g, s, Write(slot, data, offset, OK), s')
    ensures CrashSafe(g, s.store, s'.store.trace) <==>
            (|| BlocksEnd(g, offset, |data|) > s.open[slot].blockCount
             || s.store.table[slot].byteLength <= Blocks(FirstBlock(g, offset), g.blockSize))
  {
    if BlocksEnd(g, offset, |data|) > s.open[slot].blockCount {
      GrowingWriteIsCrashSafe(g, s, slot, data, offset, OK, s', s'.store.trace);
    } else if s.store.table[slot].byteLength <= Blocks(FirstBlock(g, offset), g.blockSize) {
      WritePastLengthIsSafe(g, s, slot, data, offset, s');
    } else {
      OverwriteIsNotSafe(g, s, slot, data, offset, s');
    }
  }

  lemma WritePastLengthIsSafe(g: Superblock, s: Sys, slot: nat, data: seq<byte>, offset: nat, s': Sys)
    requires Synced(g, s) && SysStep(g, s, Write(slot, data, offset, OK), s')
    requires BlocksEnd(g, offset, |data|) <= s.open[slot].blockCount
    requires s.store.table[slot].byteLength <= Blocks(FirstBlock(g, offset), g.blockSize)
    ensures CrashSafe(g, s.store, s'.store.trace)
  {
    hide Blocks, BlockOf, FirstBlock, BlocksEnd, Visible, Apart, Owned, WroteOnly, CrashSafe, At, CleanOk, Accounted, Members, Range,
         FitsDisk, EncodeSuperblock, SameOutside, Splice, Unflushed;
    var lo, hi := OverwriteFrame(g, s.store, s'.store, s.open[slot], s'.open[slot], data, offset, OK);
    forall i | 0 <= i < |s.store.table| && s.store.table[i].InUse()
      ensures Outside(g, s.store.table[i], lo, hi)
    {
      if i != slot {
        OtherFileOutside(g, s, slot, i, lo, hi);
      }
    }
    ConfinedIsSafe(g, s, s'.store.trace, lo, hi);
  }

  lemma OtherFileOutside(g: Superblock, s: Sys, slot: nat, i: nat, lo: nat, hi: nat)
    requires FilesOk(g, s) && slot < MAX_ENTRIES && i < MAX_ENTRIES && i != slot
    requires s.store.table[slot].InUse() && s.store.table[i].InUse()
    requires At(g, s.store.table[slot].startBlock) <= lo && hi <= At(g, s.store.table[slot].startBlock + s.store.table[slot].blockCount)
    ensures Outside(g, s.store.table[i], lo, hi)
  {
    var e, f := s.store.table[slot], s.store.table[i];
    ExtentInDisk(g, f, f.byteLength);
    assert Apart(e, f);
    if e.startBlock + e.blockCount <= f.startBlock {
      AtMono(g, e.startBlock + e.blockCount, f.startBlock);
    } else {
      AtMono(g, f.startBlock + f.blockCount, e.startBlock);
    }
  }

  lemma OverwriteIsNotSafe(g: Superblock, s: Sys, slot: nat, data: seq<byte>, offset: nat, s': Sys)
    requires Synced(g, s) && SysStep(g, s, Write(slot, data, offset, OK), s')
    requires BlocksEnd(g, offset, |data|) <= s.open[slot].blockCount
    requires s.store.table[slot].byteLength > Blocks(FirstBlock(g, offset), g.blockSize)
    ensures !CrashSafe(g, s.store, s'.store.trace)
  {
    hide Blocks, BlockOf, FirstBlock, BlocksEnd, At, Visible, Apart, Owned, CleanOk, WroteOnly, CrashSafe, FitsDisk, Splice, SameOutside, Unflushed,
         Accounted, Members, Range, EncodeSuperblock;
    var e := s.store.table[slot];
    OverwriteRange(g, e, s.open[slot].startLba, offset, |data|);
    var p := Blocks(s.open[slot].startLba + FirstBlock(g, offset), g.blockSize);
    ExtentInDisk(g, e, e.byteLength);
    assert Unflushed(s'.store.trace, p) by {
      BlocksGrow(g, s.open[slot].startLba, offset, |data|);
    }
    TornByte(g, s.store, s'.store.trace, slot, p);
  }

  lemma BlocksGrow(g: Superblock, lba: nat, offset: nat, amount: nat)
    requires g.blockSize > 0 && amount > 0
    ensures Blocks(lba + FirstBlock(g, offset), g.blockSize) < Blocks(lba + BlocksEnd(g, offset, amount), g.blockSize)
  {
    TransferBlocks(g, offset, amount);
    BlocksMono(lba + FirstBlock(g, offset) + 1, lba + BlocksEnd(g, offset, amount), g.blockSize);
  }

  /** If a recorded byte has been written since the flush, some power loss changes it. */
  lemma TornByte(g: Superblock, s: Store, ops: seq<DeviceOp>, slot: nat, p: nat)
    requires DeviceOk(s) && FitsDisk(ops, |s.initial|) && Unflushed(ops, p)
    requires slot < |s.table| && s.table[slot].InUse() && p < |s.disk|
    requires At(g, s.table[slot].startBlock) <= p < At(g, s.table[slot].startBlock) + s.table[slot].byteLength
    ensures !CrashSafe(g, s, ops)
  {
    var durable := Durable(s.initial, ops);
    var other: byte := if s.disk[p] == 0 then 1 else 0;
    var image := durable[p := other];
    assert CrashImage(s.initial, ops, image);
    assert !RecordedBytesKept(g, s.table, s.disk, image, slot);
  }

  /** Why safety stops at one write: the moved file's old blocks are free again while the table on
      the disk still names them, so the next allocation may hand them out. */
  lemma OldBlocksFreeBeforeFlush(g: Superblock, s: Sys, slot: nat, data: seq<byte>, offset: nat, s': Sys)
    requires Synced(g, s) && SysStep(g, s, Write(slot, data, offset, OK), s')
    requires BlocksEnd(g, offset, |data|) > s.open[slot].blockCount
    ensures var e := s.store.table[slot];
            FreeRun(Members(s'.store.words), e.startBlock, e.blockCount) && s'.store.tableDirty
  {
    var s1, b := GrownSystem(g, s, slot, data, offset, OK, s');
  }
}
