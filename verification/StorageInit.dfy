/** Boot: load the store from the device, or lay out a new one. */
module StorageInit {
  import opened Bits
  import opened Bytes
  import opened Runs
  import opened RamDisks
  import opened BlockAlloc
  import opened FileTables
  import opened VfsModel
  import opened VfsInvariant
  import opened VfsRefinement
  import opened VfsDurability
  import opened Vfs

  /** The store that a clean disk with these words and this table mounts as. */
  ghost function Mounted(nvme: RamDisk, words: seq<u64>, table: seq<FileEntry>): Store
    reads nvme
  {
    Store(nvme.initial, nvme.data, nvme.trace, words, table, false, false)
  }

  /** The disk holds this geometry, bitmap and table. */
  ghost predicate Mountable(g: Superblock, disk: seq<byte>, words: seq<u64>, table: seq<FileEntry>) {
    && GeometryOk(g) && |disk| == DiskSize(g) && MetadataOnDisk(g, disk, words, table)
    && |table| == MAX_ENTRIES && |words| == WordCount(g) && Members(words) <= Range(0, g.dataBlocks)
  }

  /** The table lies right before the data (`data_start - 1` in 64 bits). */
  function PrecedingLba(lba: nat): nat {
    if lba == 0 then 0xFFFF_FFFF_FFFF_FFFF else lba - 1
  }

  /** Load allocator and table; when the allocator does not load, for whatever reason, format. The ghost
      parameters name what the disk held; `formatted` tells which way it went, and `loaded` how often the
      outside had refused when that was decided. */
  method InitStorage(nvme: RamDisk, ghost g: Superblock, ghost words: seq<u64>, ghost table: seq<FileEntry>)
    returns (vfs: HeavenVfs?, ghost formatted: bool, ghost loaded: Refusals)
    requires nvme.Valid() && SUPERBLOCK_SIZE <= nvme.blockSize < 0x1_0000_0000 && nvme.blockSize % 8 == 0
    requires 2 <= nvme.totalBlocks && |nvme.data| < 0x1_0000_0000_0000_0000
    modifies nvme, nvme.env
    ensures nvme.Valid() && (vfs != null ==> fresh(vfs) && vfs.nvme == nvme && vfs.nvmeReady)
    ensures old(nvme.env.refused).UpTo(loaded) && loaded.UpTo(nvme.env.refused)
    ensures formatted <==> !Loadable(old(nvme.data), nvme.blockSize) || loaded != old(nvme.env.refused)
    ensures nvme.blockSize == g.blockSize && Mountable(g, old(nvme.data), words, table) ==>
              && (formatted <==> loaded != old(nvme.env.refused))
              && (vfs != null <==> nvme.env.refused == loaded)
              && (vfs != null && !formatted ==> vfs.Valid(g) && vfs.Contents() == Mounted(nvme, words, table))
    ensures !formatted ==> nvme.data == old(nvme.data) && nvme.trace == old(nvme.trace)
    ensures vfs != null && formatted ==> nvme.totalBlocks < 0x1_0000_0000_0000_0000 && FreshVfs(vfs)
  {
    hide *;
    vfs, formatted := null, false;
    if nvme.blockSize == g.blockSize && Mountable(g, nvme.data, words, table) {
      MountableIsLoadable(g, nvme.data, words, table);
    }
    var alloc := BlockAllocator.Load(nvme);
    loaded := nvme.env.refused;
    if alloc != null {
      vfs := AttachTable(nvme, alloc, g, words, table);
    } else {
      formatted := true;
      vfs := FormatStore(nvme);
    }
  }

  /** A mountable disk always loads, when nothing is refused. */
  lemma MountableIsLoadable(g: Superblock, disk: seq<byte>, words: seq<u64>, table: seq<FileEntry>)
    requires Mountable(g, disk, words, table)
    ensures SUPERBLOCK_SIZE <= g.blockSize && Loadable(disk, g.blockSize)
  {
    hide Blocks, MetadataOnDisk, Members, Range, DecodeSuperblock;
    SuperblockRead(g, disk, words, table);
    MetadataInDisk(g);
  }

  /** What formatting leaves of the files: nothing. */
  lemma NothingLeft(g: Superblock, s: Store, name: seq<byte>)
    requires forall i :: 0 <= i < |s.table| ==> !s.table[i].InUse()
    ensures View(g, Sys(s, map[], {}), name) == Absent
  {
  }

  /** Every geometry, bitmap and table that fit together are on some disk. */
  lemma SomeDiskMounts(g: Superblock, words: seq<u64>, table: seq<FileEntry>) returns (disk: seq<byte>)
    requires GeometryOk(g) && |table| == MAX_ENTRIES && |words| == WordCount(g) && Members(words) <= Range(0, g.dataBlocks)
    ensures Mountable(g, disk, words, table)
    ensures forall i :: At(g, 0) <= i < |disk| ==> disk[i] == 0
  {
    hide Blocks, EncodeSuperblock, EncodeTable, Members, Range, RegionByte;
    DiskRegions(g);
    BlocksMono(1, g.totalBlocks, g.blockSize);
    BlocksIs(1, g.blockSize);
    var region := seq(8 * |words|, j requires 0 <= j < 8 * |words| => RegionByte(words, j));
    var d1 := Splice(Zeros(DiskSize(g)), 0, EncodeSuperblock(g));
    var d2 := Splice(d1, BitmapAt(g), region);
    disk := Splice(d2, TableAt(g), EncodeTable(table));
    SpliceAround(d2, TableAt(g), EncodeTable(table), 0, SUPERBLOCK_SIZE);
    SpliceAround(d1, BitmapAt(g), region, 0, SUPERBLOCK_SIZE);
    assert disk[..SUPERBLOCK_SIZE] == disk[0..SUPERBLOCK_SIZE] == d1[0..SUPERBLOCK_SIZE];
    SpliceAround(d2, TableAt(g), EncodeTable(table), BitmapAt(g), BitmapAt(g) + 8 * |words|);
    forall j | 0 <= j < 8 * |words|
      ensures disk[BitmapAt(g) + j] == RegionByte(words, j)
    {
      assert disk[BitmapAt(g)..BitmapAt(g) + 8 * |words|][j] == disk[BitmapAt(g) + j];
    }
  }

  /** A valid disk with a file on it. When nothing is refused it mounts with the file; one refused read of
      its superblock and it is formatted (`InitStorage`), after which `NothingLeft` of it. */
  lemma FileToLose(name: seq<byte>) returns (g: Superblock, disk: seq<byte>, words: seq<u64>, table: seq<FileEntry>)
    requires StorableName(name)
    ensures Mountable(g, disk, words, table) && g == Layout(67, 4096)
    ensures View(g, Sys(Store(disk, disk, [], words, table, false, false), map[], {}), name) == Present([0])
  {
    hide Blocks, EncodeSuperblock, EncodeTable, GeometryOk, Has, FindFrom;
    g := Layout(67, 4096);
    LayoutGeometry(67, 4096);
    words := [0xFFFF];
    NewEntryIs(EMPTY_ENTRY, name, 0, 16);
    var e := NewEntry(EMPTY_ENTRY, name, 0, 16).(byteLength := 1);
    table := [e] + seq(MAX_ENTRIES - 1, _ => EMPTY_ENTRY);
    assert g.dataBlocks == 64 && Members(words) <= Range(0, 64);
    disk := SomeDiskMounts(g, words, table);
    DiskRegions(g);
    AtMono(g, 1, 64);
    AtAdd(g, 0, 1);
    BlocksIs(1, 4096);
    FindIs(table, name, FoundAt(0));
    assert disk[At(g, 0)..At(g, 0) + 1] == [0];
  }

  /** An empty store with all invariants. */
  ghost predicate FreshVfs(vfs: HeavenVfs)
    requires 2 <= vfs.nvme.totalBlocks < 0x1_0000_0000_0000_0000 && 0 < vfs.nvme.blockSize < 0x1_0000_0000
    reads vfs.allocator, vfs.fileTable, vfs.fileTable.entries, vfs.nvme
  {
    var g := Layout(vfs.nvme.totalBlocks, vfs.nvme.blockSize);
    && vfs.Valid(g) && Inv(g, Sys(vfs.Contents(), map[], {}))
    && forall i :: 0 <= i < |vfs.Contents().table| ==> !vfs.Contents().table[i].InUse()
  }

  method AttachTable(nvme: RamDisk, alloc: BlockAllocator, ghost g: Superblock, ghost words: seq<u64>, ghost table: seq<FileEntry>)
    returns (vfs: HeavenVfs?)
    requires nvme.Valid() && SUPERBLOCK_SIZE <= nvme.blockSize <= |nvme.data| && nvme.blockSize % 8 == 0 && !alloc.dirty
    requires LoadedFrom(alloc.bitmap, alloc.freeCount, nvme.data, nvme.blockSize) && alloc.blockSize == nvme.blockSize
    requires var sb := DecodeSuperblock(nvme.data[..nvme.blockSize]);
             && alloc.dataBlockCount == sb.dataBlocks && alloc.dataStartLba == sb.dataStart
             && alloc.bitmapStartLba == sb.bitmapStart && alloc.bitmapOnDiskBlocks == sb.bitmapBlocks
    modifies nvme.env
    ensures old(nvme.env.refused).UpTo(nvme.env.refused)
    ensures nvme.blockSize == g.blockSize && Mountable(g, nvme.data, words, table) ==>
              (vfs != null <==> nvme.env.refused == old(nvme.env.refused))
    ensures vfs != null ==> fresh(vfs) && vfs.nvme == nvme && vfs.nvmeReady
    ensures vfs != null && nvme.blockSize == g.blockSize && Mountable(g, nvme.data, words, table) ==>
              vfs.Valid(g) && vfs.Contents() == Mounted(nvme, words, table)
  {
    hide LoadedFrom, DecodeSuperblock, DecodeTable, FitsDisk, Visible, Mountable, GeometryOk, Members, Range, MetadataOnDisk, Blocks;
    var ftLba := PrecedingLba(alloc.dataStartLba);
    if nvme.blockSize == g.blockSize && Mountable(g, nvme.data, words, table) {
      SuperblockRead(g, nvme.data, words, table);
      AllocatorFits(g, nvme.data, words, table);
      MetadataInDisk(g);
    }
    var ft := FileTable.Load(nvme, ftLba, alloc.blockSize);
    if ft == null {
      return null;
    }
    BlocksIs(ftLba, nvme.blockSize);
    vfs := new HeavenVfs(alloc, ft, nvme, true);
    if nvme.blockSize == g.blockSize && Mountable(g, nvme.data, words, table) {
      MountedParts(g, nvme.data, words, table, DecodeSuperblock(nvme.data[..nvme.blockSize]), alloc.bitmap, alloc.freeCount, ft.entries[..]);
      AllocatorFits(g, nvme.data, words, table);
    }
  }

  lemma MountedParts(g: Superblock, disk: seq<byte>, words: seq<u64>, table: seq<FileEntry>,
                     sb: Superblock, words': seq<u64>, freeCount: nat, table': seq<FileEntry>)
    requires SUPERBLOCK_SIZE <= g.blockSize <= |disk|
    requires sb == DecodeSuperblock(disk[..g.blockSize]) && LoadedFrom(words', freeCount, disk, g.blockSize)
    requires var at := Blocks(PrecedingLba(sb.dataStart), g.blockSize);
             at + TABLE_SIZE <= |disk| && table' == DecodeTable(disk[at..at + TABLE_SIZE])
    requires Mountable(g, disk, words, table)
    ensures sb == g && words' == words && table' == table && freeCount == g.dataBlocks - |Members(words)|
  {
    hide Blocks, EncodeSuperblock, DecodeSuperblock, EncodeTable, DecodeTable, LoadedFrom, Has, Range, Members, WordsOnDisk, TableOnDisk;
    SuperblockRead(g, disk, words, table);
    assert PrecedingLba(g.dataStart) == g.dataStart - 1;
    MountRebuilds(g, disk, words, table, sb, words', freeCount, table');
  }

  lemma SuperblockRead(g: Superblock, disk: seq<byte>, words: seq<u64>, table: seq<FileEntry>)
    requires Mountable(g, disk, words, table)
    ensures SUPERBLOCK_SIZE <= g.blockSize <= |disk| && DecodeSuperblock(disk[..g.blockSize]) == g
  {
    hide Blocks, EncodeSuperblock, DecodeSuperblock, EncodeTable, WordsOnDisk, TableOnDisk, Members, Range;
    SliceOfSlice(disk, 0, g.blockSize, 0, SUPERBLOCK_SIZE);
    DecodeEncodedSuperblock(g, disk[..g.blockSize]);
  }

  /** What `BlockAllocator.Valid` asks of a loaded bitmap. */
  lemma AllocatorFits(g: Superblock, disk: seq<byte>, words: seq<u64>, table: seq<FileEntry>)
    requires Mountable(g, disk, words, table)
    ensures GeometryOk(g) && |disk| == DiskSize(g) && PrecedingLba(g.dataStart) == g.tableStart
    ensures g.dataBlocks <= 64 * |words| < g.dataBlocks + 64 && Members(words) <= Range(0, g.dataBlocks)
    ensures 8 * |words| <= g.bitmapBlocks * g.blockSize
  {
    hide Blocks, MetadataOnDisk, Members, Range;
    BlocksIs(g.bitmapBlocks, g.blockSize);
  }

  method FormatStore(nvme: RamDisk) returns (vfs: HeavenVfs?)
    requires nvme.Valid() && SUPERBLOCK_SIZE <= nvme.blockSize < 0x1_0000_0000 && nvme.blockSize % 8 == 0
    requires 2 <= nvme.totalBlocks && |nvme.data| < 0x1_0000_0000_0000_0000
    modifies nvme, nvme.env
    ensures nvme.Valid() && (vfs != null ==> fresh(vfs) && vfs.nvme == nvme && vfs.nvmeReady)
    ensures vfs != null <==> nvme.env.refused == old(nvme.env.refused)
    ensures old(nvme.env.refused).UpTo(nvme.env.refused)
    ensures nvme.totalBlocks < 0x1_0000_0000_0000_0000
    ensures vfs != null ==> FreshVfs(vfs)
  {
    hide Formatted, FitsDisk, Visible, GeometryOk, Members, Range, Blocks, Inv, Has, EncodeTable, EncodeSuperblock;
    MulMono(1, nvme.blockSize, nvme.totalBlocks);
    var alloc := BlockAllocator.Format(nvme, nvme.totalBlocks, nvme.blockSize);
    if alloc == null {
      return null;
    }
    var ft := new FileTable(PrecedingLba(alloc.dataStartLba), alloc.blockSize);
    vfs := new HeavenVfs(alloc, ft, nvme, true);
    FormattedStore(nvme.totalBlocks, nvme.blockSize, vfs.Contents());
  }

  lemma FormattedStore(total: nat, blockSize: nat, s: Store)
    requires 2 <= total < 0x1_0000_0000_0000_0000 && SUPERBLOCK_SIZE <= blockSize < 0x1_0000_0000 && blockSize % 8 == 0
    requires |s.disk| == total * blockSize < 0x1_0000_0000_0000_0000 && Formatted(s.disk, total, blockSize) && DeviceOk(s)
    requires var g := Layout(total, blockSize); |s.words| == WordCount(g)
    requires (forall w :: 0 <= w < |s.words| ==> s.words[w] == 0) && !s.bitmapDirty && !s.tableDirty
    requires s.table == seq(MAX_ENTRIES, _ => EMPTY_ENTRY)
    ensures var g := Layout(total, blockSize);
            && GeometryOk(g) && Inv(g, Sys(s, map[], {})) && PrecedingLba(g.dataStart) == g.tableStart && g.bitmapStart == 1
            && |s.disk| == DiskSize(g) && g.blockSize == blockSize
    ensures forall i :: 0 <= i < |s.table| ==> !s.table[i].InUse()
  {
    hide Formatted, Visible, FitsDisk, Blocks, Layout, EncodeSuperblock, WordsOnDisk, TableOnDisk, Has, Members;
    var g := Layout(total, blockSize);
    LayoutGeometry(total, blockSize);
    ZeroWordsEmpty(s.words);
    ZeroMetadataStored(total, blockSize, s.disk, s.words, s.table);
    BlocksIs(total, blockSize);
  }

  lemma LayoutGeometry(total: nat, blockSize: nat)
    requires 2 <= total < 0x1_0000_0000_0000_0000 && SUPERBLOCK_SIZE <= blockSize < 0x1_0000_0000 && blockSize % 8 == 0
    requires total * blockSize < 0x1_0000_0000_0000_0000
    ensures var g := Layout(total, blockSize);
            && GeometryOk(g) && g.blockSize == blockSize && g.totalBlocks == total && g.bitmapStart == 1
            && g.tableStart == 1 + g.bitmapBlocks && PrecedingLba(g.dataStart) == g.tableStart
  {
    hide Blocks;
    LayoutFits(total, blockSize);
    var g := Layout(total, blockSize);
    BlocksIs(total, blockSize);
    BlocksIs(g.bitmapBlocks, blockSize);
  }

  /** Zeroed blocks hold an empty bitmap and an empty table. */
  lemma ZeroMetadataStored(total: nat, blockSize: nat, disk: seq<byte>, words: seq<u64>, table: seq<FileEntry>)
    requires 2 <= total < 0x1_0000_0000_0000_0000 && SUPERBLOCK_SIZE <= blockSize < 0x1_0000_0000 && blockSize % 8 == 0
    requires |disk| == total * blockSize < 0x1_0000_0000_0000_0000 && Formatted(disk, total, blockSize)
    requires |words| == WordCount(Layout(total, blockSize)) && forall w :: 0 <= w < |words| ==> words[w] == 0
    requires table == seq(MAX_ENTRIES, _ => EMPTY_ENTRY)
    ensures var g := Layout(total, blockSize);
            && disk[..SUPERBLOCK_SIZE] == EncodeSuperblock(g) && SUPERBLOCK_SIZE <= |disk|
            && WordsOnDisk(disk, BitmapAt(g), words) && TableOnDisk(disk, TableAt(g), table)
  {
    hide Blocks, EncodeSuperblock, Layout, GeometryOk, RegionByte, EncodeTable;
    var g := Layout(total, blockSize);
    LayoutGeometry(total, blockSize);
    DiskRegions(g);
    BlocksIs(1, blockSize);
    BlocksIs(total, blockSize);
    BlocksIs(2 + g.bitmapBlocks, blockSize);
    assert g.tableStart + 1 == 2 + g.bitmapBlocks;
    ZeroRegionBytes(words);
    EncodeEmpty(MAX_ENTRIES);
    assert disk[TableAt(g)..TableAt(g) + TABLE_SIZE] == Zeros(TABLE_SIZE);
  }

  lemma ZeroRegionBytes(words: seq<u64>)
    requires forall w :: 0 <= w < |words| ==> words[w] == 0
    ensures forall j: nat :: RegionByte(words, j) == 0
  {
    ZeroLe(8);
  }

  lemma {:induction false} EncodeEmpty(n: nat)
    ensures EncodeTable(seq(n, _ => EMPTY_ENTRY)) == Zeros(ENTRY_SIZE * n)
  {
    var table := seq(n, _ => EMPTY_ENTRY);
    if n > 0 {
      EncodeEmpty(n - 1);
      assert table[..n - 1] == seq(n - 1, _ => EMPTY_ENTRY);
      ZerosAreEmptyEntry();
    }
  }
}
