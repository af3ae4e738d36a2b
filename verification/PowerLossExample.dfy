/** Writes that succeed exist wherever there is room, and two of them after one sync can lose a file. */
module PowerLossExample {
  import opened Bits
  import opened Bytes
  import opened Runs
  import opened RamDisks
  import opened BlockAlloc
  import opened FileTables
  import opened VfsModel
  import opened VfsInvariant
  import opened VfsRefinement
  import opened VfsDurability
  import opened VfsPowerLoss
  import opened VfsIo
  import opened Vfs
  import opened StorageInit

  /** Every set of block numbers is a bitmap. */
  lemma {:induction false} SomeWords(used: set<nat>, n: nat) returns (words: seq<u64>)
    requires used <= Range(0, 64 * n)
    ensures |words| == n && Members(words) == used
    decreases |used|
  {
    if used == {} {
      words := seq(n, _ => 0);
      ZeroWordsEmpty(words);
    } else {
      var i :| i in used;
      words := SomeWords(used - {i}, n);
      SetBitAddsIndex(words, i);
      words := words[i / 64 := Or(words[i / 64], Pow2(i % 64))];
      assert used - {i} + {i} == used;
    }
  }

  /** One more write on the device. */
  lemma Writes(s: Store, at: nat, bytes: seq<byte>) returns (s': Store)
    requires DeviceOk(s) && at + |bytes| <= |s.disk|
    ensures s' == s.(disk := Splice(s.disk, at, bytes), trace := s.trace + [Wrote(at, bytes)])
    ensures DiskStep(s, s', at, at + |bytes|) && AllLanded(s.trace, s'.trace, s'.disk)
    ensures forall i :: at <= i < at + |bytes| ==> Unflushed(s'.trace, i)
  {
    hide Visible, FitsDisk, Splice;
    s' := s.(disk := Splice(s.disk, at, bytes), trace := s.trace + [Wrote(at, bytes)]);
    VisibleAfter(s.initial, s.trace, Wrote(at, bytes));
  }

  lemma Flushes(s: Store) returns (s': Store)
    requires DeviceOk(s)
    ensures s' == s.(trace := s.trace + [Flushed]) && DeviceOk(s')
  {
    hide Visible, FitsDisk;
    s' := s.(trace := s.trace + [Flushed]);
    VisibleAfter(s.initial, s.trace, Flushed);
  }

  lemma VisibleAfter(initial: seq<byte>, ops: seq<DeviceOp>, op: DeviceOp)
    requires FitsDisk(ops, |initial|) && (op.Wrote? ==> op.at + |op.bytes| <= |initial|)
    ensures FitsDisk(ops + [op], |initial|)
    ensures Visible(initial, ops + [op]) == if op.Wrote? then Splice(Visible(initial, ops), op.at, op.bytes) else Visible(initial, ops)
  {
    hide Splice;
    assert (ops + [op])[..|ops|] == ops;
  }

  /** Wherever there is a run of free blocks, a file can move there. */
  lemma GrowCanSucceed(g: Superblock, s: Sys, slot: nat, needed: u64, b: u64) returns (s': Sys)
    requires Inv(g, s) && slot in s.open && needed > s.open[slot].blockCount
    requires LowestRun(Members(s.store.words), g.dataBlocks, needed, 1, b)
    ensures slot in s'.open && Relocated(g, s.store, s'.store, s.open[slot], s'.open[slot], needed, b)
    ensures s'.open == s.open[slot := s'.open[slot]] && s'.leaked == s.leaked
  {
    hide Visible, FitsDisk, Splice, Members, Range, At, CleanOk, Accounted, Apart, WroteOnly, AllLanded, EncodeSuperblock;
    var e, h := s.store.table[slot], s.open[slot];
    var n := Blocks(h.blockCount, g.blockSize);
    ExtentInDisk(g, e, n);
    AtMono(g, b + needed, g.dataBlocks);
    DiskRegions(g);
    AtAdd(g, b, h.blockCount);
    AtMono(g, b + h.blockCount, b + needed);
    var copy := ExtentBytes(g, s.store.disk, e.startBlock, n);
    var s1 := Writes(s.store, At(g, b), copy);
    var s2 := Flushes(s1);
    var used := Members(s.store.words) + Range(b, needed) - Range(e.startBlock, h.blockCount);
    assert used <= Range(0, 64 * WordCount(g));
    var words := SomeWords(used, WordCount(g));
    var store := s2.(words := words, bitmapDirty := true, tableDirty := true,
                     table := s.store.table[slot := e.(startBlock := b, blockCount := needed)]);
    s' := Sys(store, s.open[slot := h.(startLba := g.dataStart + b, blockCount := needed)], s.leaked);
    FlushedStep(s.store, s1, store, At(g, b), At(g, b) + n, At(g, b + needed));
    assert ExtentBytes(g, store.disk, b, n) == copy;
  }

  lemma FlushedStep(s: Store, s1: Store, s': Store, lo: nat, mid: nat, hi: nat)
    requires DiskStep(s, s1, lo, mid) && mid <= hi
    requires s'.initial == s1.initial && s'.disk == s1.disk && s'.trace == s1.trace + [Flushed] && DeviceOk(s')
    ensures DiskStep(s, s', lo, hi)
  {
    hide Visible, FitsDisk;
  }

  /** Overwriting one whole block of an open file can succeed. */
  lemma OverwriteCanSucceed(g: Superblock, s: Sys, slot: nat, k: nat, data: seq<byte>) returns (s': Sys)
    requires Inv(g, s) && slot in s.open && k < s.open[slot].blockCount && |data| == g.blockSize
    ensures slot in s'.open && OverwriteStep(g, s.store, s'.store, s.open[slot], s'.open[slot], data, Blocks(k, g.blockSize), OK)
    ensures s'.open == s.open[slot := s'.open[slot]] && s'.leaked == s.leaked
  {
    hide *;
    BlockPlace(g, s, slot, k);
    OneBlock(g, k);
    InvDisk(g, s);
    var h, offset := s.open[slot], Blocks(k, g.blockSize);
    var store := Writes(s.store, Blocks(h.startLba + k, g.blockSize), data);
    BlockWritten(g, s.store, store, h, k, data);
    var h' := h.(byteLength := if offset + |data| > h.byteLength then offset + |data| else h.byteLength);
    s' := Sys(store, s.open[slot := h'], s.leaked);
  }

  /** Where block `k` of an open file is. */
  lemma BlockPlace(g: Superblock, s: Sys, slot: nat, k: nat)
    requires Inv(g, s) && slot in s.open && k < s.open[slot].blockCount
    ensures g.blockSize > 0 && Blocks(s.open[slot].startLba + k, g.blockSize) + g.blockSize <= |s.store.disk|
  {
    hide Visible, FitsDisk, Members, Range, CleanOk, Accounted, Apart, Blocks, EncodeSuperblock;
    var e, lba := s.store.table[slot], s.open[slot].startLba;
    BlocksAdd(lba + k, 1, g.blockSize);
    BlocksIs(1, g.blockSize);
    BlocksMono(lba + k + 1, g.totalBlocks, g.blockSize);
  }

  lemma BlockWritten(g: Superblock, s: Store, s': Store, h: Handle, k: nat, data: seq<byte>)
    requires |data| == g.blockSize > 0 && Blocks(h.startLba + k, g.blockSize) + g.blockSize <= |s.disk|
    requires var at := Blocks(h.startLba + k, g.blockSize);
             && s' == s.(disk := Splice(s.disk, at, data), trace := s.trace + [Wrote(at, data)])
             && DiskStep(s, s', at, at + |data|) && AllLanded(s.trace, s'.trace, s'.disk)
             && forall i :: at <= i < at + |data| ==> Unflushed(s'.trace, i)
    ensures var offset := Blocks(k, g.blockSize);
            OverwriteStep(g, s, s', h, h.(byteLength := if offset + |data| > h.byteLength then offset + |data| else h.byteLength), data, offset, OK)
  {
    OneBlock(g, k);
    hide DiskStep, AllLanded, Unflushed, OverwriteStep, Splice, Blocks, FirstBlock, BlocksEnd;
    BlocksAdd(h.startLba, k, g.blockSize);
    BlocksAdd(h.startLba + k, 1, g.blockSize);
    BlocksIs(1, g.blockSize);
    OverwriteDone(g, s, s', h, data, Blocks(k, g.blockSize), k, 1, 0, data);
  }

  lemma OneBlock(g: Superblock, k: nat)
    requires g.blockSize > 0
    ensures FirstBlock(g, Blocks(k, g.blockSize)) == k && BlocksEnd(g, Blocks(k, g.blockSize), g.blockSize) == k + 1
  {
    BlocksIs(k, g.blockSize);
    BlockOfIs(k * g.blockSize, g.blockSize);
    BlockOfIs(k * g.blockSize + g.blockSize - 1, g.blockSize);
    DivModUnique(k * g.blockSize, g.blockSize, k, 0);
    DivModUnique(k * g.blockSize + g.blockSize - 1, g.blockSize, k, g.blockSize - 1);
  }

  /** A write that appends the block after an extent succeeds whenever a long enough run is free. */
  lemma AppendCanSucceed(g: Superblock, s: Sys, slot: nat, data: seq<byte>, b: u64) returns (s': Sys)
    requires Inv(g, s) && slot in s.open && |data| == g.blockSize && s.open[slot].blockCount + 1 < 0x1_0000_0000_0000_0000
    requires LowestRun(Members(s.store.words), g.dataBlocks, s.open[slot].blockCount + 1, 1, b)
    ensures SysStep(g, s, Write(slot, data, Blocks(s.open[slot].blockCount, g.blockSize), OK), s')
    ensures BlocksEnd(g, Blocks(s.open[slot].blockCount, g.blockSize), |data|) > s.open[slot].blockCount
    ensures s'.open.Keys == s.open.Keys && forall i :: i in s.open && i != slot ==> s'.open[i] == s.open[i]
    ensures Members(s'.store.words)
            == Members(s.store.words) + Range(b, s.open[slot].blockCount + 1) - Range(s.store.table[slot].startBlock, s.open[slot].blockCount)
  {
    hide *;
    HandleParts(g, s, slot);
    OneBlock(g, s.open[slot].blockCount);
    var n := s.open[slot].blockCount;
    var s1 := GrowCanSucceed(g, s, slot, n + 1, b);
    MovedHandle(g, s, s1, slot, n + 1, b);
    GrowKeepsInv(g, s, slot, n + 1, b, s1);
    s' := OverwriteCanSucceed(g, s1, slot, n, data);
    GrownSteps(g, s, s1, slot, data, s', b);
  }

  lemma HandleParts(g: Superblock, s: Sys, slot: nat)
    requires Inv(g, s) && slot in s.open
    ensures g.blockSize > 0 && slot < |s.store.table| && s.open[slot].slot == slot
  {
  }

  lemma MovedHandle(g: Superblock, s: Sys, s1: Sys, slot: nat, n: u64, b: u64)
    requires slot in s.open && slot in s1.open && s.open[slot].slot < |s.store.table|
    requires Relocated(g, s.store, s1.store, s.open[slot], s1.open[slot], n, b)
    ensures s1.open[slot].blockCount == n
  {
    hide Blocks, LowestRun, Members, Range, DiskStep;
  }

  lemma GrownSteps(g: Superblock, s: Sys, s1: Sys, slot: nat, data: seq<byte>, s': Sys, b: u64)
    requires slot in s.open && slot in s1.open && slot in s'.open && |data| == g.blockSize > 0 && s.open[slot].slot < |s.store.table|
    requires s.open[slot].slot == slot
    requires s.open[slot].blockCount + 1 < 0x1_0000_0000_0000_0000
    requires Relocated(g, s.store, s1.store, s.open[slot], s1.open[slot], s.open[slot].blockCount + 1, b)
    requires OverwriteStep(g, s1.store, s'.store, s1.open[slot], s'.open[slot], data, Blocks(s.open[slot].blockCount, g.blockSize), OK)
    requires BlocksEnd(g, Blocks(s.open[slot].blockCount, g.blockSize), |data|) == s.open[slot].blockCount + 1
    requires s1.open == s.open[slot := s1.open[slot]] && s'.open == s1.open[slot := s'.open[slot]] && s'.leaked == s1.leaked == s.leaked
    ensures SysStep(g, s, Write(slot, data, Blocks(s.open[slot].blockCount, g.blockSize), OK), s')
    ensures Members(s'.store.words)
            == Members(s.store.words) + Range(b, s.open[slot].blockCount + 1) - Range(s.store.table[slot].startBlock, s.open[slot].blockCount)
  {
    hide Blocks, BlockOf, Members, Range, LowestRun, DiskStep, Unflushed, Splice, AllLanded, At;
    assert GrowStep(g, s.store, s1.store, s.open[slot], s1.open[slot], s.open[slot].blockCount + 1, OK);
  }

  // ---- The example ----

  /** A synced disk with a file of two recorded blocks and a file of one block, both open. */
  lemma TwoFiles() returns (g: Superblock, s: Sys)
    ensures g == Layout(67, 4096) && g.blockSize == 4096 && g.dataBlocks == 64
    ensures Synced(g, s) && Members(s.store.words) == {0, 1, 2} && s.open.Keys == {0, 1}
    ensures |s.store.table| == MAX_ENTRIES && s.store.table[0].startBlock == 0 && s.store.table[0].byteLength == 8192
    ensures s.open[0].blockCount == 2 && s.store.table[1].startBlock == 2 && s.open[1].blockCount == 1
  {
    g := Layout(67, 4096);
    ExampleGeometry();
    var table := ExampleTable();
    hide *;
    TwoEntriesOk(g, table);
    var words := SomeWords({0, 1, 2}, 1);
    var disk := SomeDiskMounts(g, words, table);
    var open := map[0 := Handle(0, g.dataStart, 2, 8192), 1 := Handle(1, g.dataStart + 2, 1, 0)];
    s := Sys(Store(disk, disk, [Flushed], words, table, false, false), open, {});
    TwoHandlesOk(g, table, open);
    MountedIsSynced(g, s);
  }

  lemma ExampleGeometry()
    ensures var g := Layout(67, 4096); GeometryOk(g) && g.blockSize == 4096 && g.dataBlocks == 64 && WordCount(g) == 1
    ensures {0, 1, 2} <= Range(0, 64)
  {
    LayoutGeometry(67, 4096);
    hide GeometryOk;
  }

  lemma ExampleTable() returns (table: seq<FileEntry>)
    ensures IsExample(table)
  {
    NewEntryIs(EMPTY_ENTRY, [0x61], 0, 2);
    NewEntryIs(EMPTY_ENTRY, [0x62], 2, 1);
    var e, f := NewEntry(EMPTY_ENTRY, [0x61], 0, 2).(byteLength := 8192), NewEntry(EMPTY_ENTRY, [0x62], 2, 1);
    hide NewEntry, NameFieldOf, UpToNul;
    table := [e, f] + seq(MAX_ENTRIES - 2, _ => EMPTY_ENTRY);
  }

  ghost predicate IsExample(table: seq<FileEntry>) {
    && |table| == MAX_ENTRIES && (forall i :: 2 <= i < |table| ==> table[i] == EMPTY_ENTRY)
    && var e, f := table[0], table[1];
    && e.InUse() && e.NameBytes() == [0x61] && e.startBlock == 0 && e.blockCount == 2 && e.byteLength == 8192
    && f.InUse() && f.NameBytes() == [0x62] && f.startBlock == 2 && f.blockCount == 1 && f.byteLength == 0
  }

  lemma TwoHandlesOk(g: Superblock, table: seq<FileEntry>, open: map<nat, Handle>)
    requires IsExample(table) && g.blockSize == 4096
    requires open == map[0 := Handle(0, g.dataStart, 2, 8192), 1 := Handle(1, g.dataStart + 2, 1, 0)]
    ensures HandlesOk(g, table, open)
  {
    BlocksIs(2, 4096);
    BlocksIs(1, 4096);
    hide Blocks, UpToNul;
  }

  lemma OnlyFlushed(disk: seq<byte>)
    ensures FitsDisk([Flushed], |disk|) && Visible(disk, [Flushed]) == disk
  {
    assert [Flushed][..0] == [];
  }

  lemma TwoEntriesOk(g: Superblock, table: seq<FileEntry>)
    requires IsExample(table) && g.dataBlocks == 64 && g.blockSize == 4096
    ensures |table| == MAX_ENTRIES && TableOk(g, table) && Accounted(table, {0, 1, 2}, {})
    ensures table[0].startBlock == 0 && table[0].byteLength == 8192 && table[1].startBlock == 2
  {
    BlocksIs(2, 4096);
    hide Blocks, UpToNul;
    forall b: nat
      ensures b in {0, 1, 2} <==> Owned(table, b)
    {
      assert Owns(table[0], b) <==> b < 2;
      assert Owns(table[1], b) <==> b == 2;
      assert forall i :: 2 <= i < |table| ==> !Owns(table[i], b);
    }
  }

  lemma MountedIsSynced(g: Superblock, s: Sys)
    requires Mountable(g, s.store.disk, s.store.words, s.store.table) && s.store.initial == s.store.disk && s.store.trace == [Flushed]
    requires !s.store.bitmapDirty && !s.store.tableDirty
    requires TableOk(g, s.store.table) && HandlesOk(g, s.store.table, s.open)
    requires Accounted(s.store.table, Members(s.store.words), s.leaked)
    ensures Synced(g, s)
  {
    hide Blocks, EncodeSuperblock, EncodeTable, WordsOnDisk, TableOnDisk, Members, Range, Visible, FitsDisk, Apart, EntryOk;
    OnlyFlushed(s.store.disk);
  }

  /** Two successful growing writes after one sync: the first is crash safe, the two together are not. */
  lemma TwoWritesLoseAFile() returns (g: Superblock, s: Sys, s1: Sys, s2: Sys, data: seq<byte>)
    ensures Synced(g, s)
    ensures SysStep(g, s, Write(0, data, 8192, OK), s1) && SysStep(g, s1, Write(1, data, 4096, OK), s2)
    ensures CrashSafe(g, s.store, s1.store.trace) && !CrashSafe(g, s.store, s2.store.trace)
  {
    g, s := TwoFiles();
    data := Zeros(4096);
    SyncedInv(g, s);
    BlocksIs(2, 4096);
    BlocksIs(1, 4096);
    ExampleRuns();
    hide *;
    s1 := AppendCanSucceed(g, s, 0, data, 3);
    StepKeepsInv(g, s, Write(0, data, 8192, OK), s1);
    s2 := AppendCanSucceed(g, s1, 1, data, 0);
    OneBlock(g, 1);
    TwoGrowingWritesAreNotSafe(g, s, 0, data, 8192, s1, 1, data, 4096, s2);
  }

  /** The free runs of the example, and which blocks are used after its first write. */
  lemma ExampleRuns()
    ensures LowestRun({0, 1, 2}, 64, 3, 1, 3) && LowestRun({2, 3, 4, 5}, 64, 2, 1, 0)
    ensures {0, 1, 2} + Range(3, 3) - Range(0, 2) == {2, 3, 4, 5}
  {
    assert 2 in {0, 1, 2} && 1 in {0, 1, 2} && 0 in {0, 1, 2};
  }

  lemma SyncedInv(g: Superblock, s: Sys)
    requires Synced(g, s)
    ensures Inv(g, s)
  {
  }
}
