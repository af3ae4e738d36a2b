/** What holds of the file store in every reachable state, and what a client sees of it. */
module VfsInvariant {
  import opened Bits
  import opened Bytes
  import opened Runs
  import opened RamDisks
  import opened BlockAlloc
  import opened FileTables
  import opened VfsModel

  /** The store with the handles its clients hold, by table slot, and the blocks lost to failed creations. */
  datatype Sys = Sys(store: Store, open: map<nat, Handle>, leaked: set<nat>)

  predicate Owns(e: FileEntry, b: nat) {
    e.InUse() && e.startBlock <= b < e.startBlock + e.blockCount
  }

  predicate EntryOk(g: Superblock, e: FileEntry) {
    e.InUse() ==>
      && 1 <= e.blockCount && e.startBlock + e.blockCount <= g.dataBlocks
      && e.byteLength <= Blocks(e.blockCount, g.blockSize)
      && StorableName(e.NameBytes())
  }

  /** Two entries in use have different names and disjoint extents. */
  predicate Apart(e: FileEntry, f: FileEntry) {
    e.InUse() && f.InUse() ==>
      && e.NameBytes() != f.NameBytes()
      && (e.startBlock + e.blockCount <= f.startBlock || f.startBlock + f.blockCount <= e.startBlock)
  }

  ghost predicate TableOk(g: Superblock, table: seq<FileEntry>) {
    && |table| == MAX_ENTRIES
    && (forall i :: 0 <= i < |table| ==> EntryOk(g, table[i]))
    && (forall i, j :: 0 <= i < |table| && 0 <= j < |table| && i != j ==> Apart(table[i], table[j]))
  }

  ghost predicate Owned(table: seq<FileEntry>, b: nat) {
    exists i :: 0 <= i < |table| && Owns(table[i], b)
  }

  /** The used blocks are exactly the extents and the leaked blocks, and no leaked block has an owner. */
  ghost predicate Accounted(table: seq<FileEntry>, used: set<nat>, leaked: set<nat>) {
    && (forall b: nat :: b in used <==> b in leaked || Owned(table, b))
    && (forall b: nat :: b in leaked ==> !Owned(table, b))
  }

  ghost predicate HandlesOk(g: Superblock, table: seq<FileEntry>, open: map<nat, Handle>) {
    forall i :: i in open ==>
      && i < |table| && table[i].InUse()
      && open[i] == Handle(i, g.dataStart + table[i].startBlock, table[i].blockCount, open[i].byteLength)
      && open[i].byteLength <= Blocks(table[i].blockCount, g.blockSize)
  }

  /** What is needed to speak of files: entries and handles are consistent and lie on the disk. */
  ghost predicate FilesOk(g: Superblock, s: Sys) {
    && GeometryOk(g) && |s.store.disk| == DiskSize(g)
    && TableOk(g, s.store.table)
    && HandlesOk(g, s.store.table, s.open)
  }

  ghost predicate StoreOk(g: Superblock, s: Store) {
    && GeometryOk(g) && |s.disk| == DiskSize(g) && DeviceOk(s)
    && SUPERBLOCK_SIZE <= |s.disk| && s.disk[..SUPERBLOCK_SIZE] == EncodeSuperblock(g)
    && |s.words| == WordCount(g) && Members(s.words) <= Range(0, g.dataBlocks)
  }

  /** What is not dirty is on the disk. */
  ghost predicate CleanOk(g: Superblock, s: Store) {
    && (!s.bitmapDirty ==> WordsOnDisk(s.disk, BitmapAt(g), s.words))
    && (!s.tableDirty ==> TableOnDisk(s.disk, TableAt(g), s.table))
  }

  ghost predicate Inv(g: Superblock, s: Sys) {
    && FilesOk(g, s)
    && Accounted(s.store.table, Members(s.store.words), s.leaked)
    && StoreOk(g, s.store) && CleanOk(g, s.store)
  }

  // ---- The client's view: names to contents ----

  datatype FileView = Absent | Present(bytes: seq<byte>)

  /** The length of the file in slot `i`: the open handle's when there is one. */
  ghost function LengthOf(s: Sys, i: nat): nat
    requires i < |s.store.table|
  {
    if i in s.open then s.open[i].byteLength else s.store.table[i].byteLength
  }

  ghost function Content(g: Superblock, s: Sys, i: nat): seq<byte>
    requires i < |s.store.table|
    requires At(g, s.store.table[i].startBlock) + LengthOf(s, i) <= |s.store.disk|
  {
    ExtentBytes(g, s.store.disk, s.store.table[i].startBlock, LengthOf(s, i))
  }

  /** The bytes a client sees under `name`; an extent never reaches past the disk (`ContentInDisk`). */
  ghost function View(g: Superblock, s: Sys, name: seq<byte>): FileView {
    match Find(s.store.table, name)
    case NotFound => Absent
    case FoundAt(i) =>
      if At(g, s.store.table[i].startBlock) + LengthOf(s, i) <= |s.store.disk| then Present(Content(g, s, i)) else Absent
  }

  lemma ExtentInDisk(g: Superblock, e: FileEntry, n: nat)
    requires GeometryOk(g) && EntryOk(g, e) && e.InUse() && n <= Blocks(e.blockCount, g.blockSize)
    ensures At(g, e.startBlock) + n <= At(g, e.startBlock + e.blockCount) <= DiskSize(g)
  {
    AtAdd(g, e.startBlock, e.blockCount);
    DiskRegions(g);
    AtMono(g, e.startBlock + e.blockCount, g.dataBlocks);
  }

  lemma ContentInDisk(g: Superblock, s: Sys, i: nat)
    requires FilesOk(g, s) && i < |s.store.table| && s.store.table[i].InUse()
    ensures At(g, s.store.table[i].startBlock) + LengthOf(s, i)
            <= At(g, s.store.table[i].startBlock + s.store.table[i].blockCount) <= |s.store.disk|
  {
    ExtentInDisk(g, s.store.table[i], LengthOf(s, i));
  }

  lemma FindUnique(g: Superblock, table: seq<FileEntry>, i: nat)
    requires TableOk(g, table) && i < |table| && table[i].InUse()
    ensures Find(table, table[i].NameBytes()) == FoundAt(i)
  {
    var name := table[i].NameBytes();
    forall j | 0 <= j < i
      ensures !table[j].IsNamed(name)
    {
      assert Apart(table[j], table[i]);
    }
    FindIs(table, name, FoundAt(i));
  }

  // ---- One entry changes ----

  /** Replacing entry `i` by one that owns only blocks that were free or the entry's own keeps the
      table's invariants; the used set changes accordingly. */
  lemma EntryReplaced(g: Superblock, table: seq<FileEntry>, used: set<nat>, leaked: set<nat>,
                      i: nat, e: FileEntry, used': set<nat>)
    requires TableOk(g, table) && Accounted(table, used, leaked) && i < |table| && EntryOk(g, e)
    requires forall j :: 0 <= j < |table| && j != i && table[j].InUse() && e.InUse() ==> table[j].NameBytes() != e.NameBytes()
    requires forall b: nat :: Owns(e, b) ==> b !in used || Owns(table[i], b)
    requires forall b: nat :: b in used' <==> Owns(e, b) || (b in used && !Owns(table[i], b))
    ensures TableOk(g, table[i := e]) && Accounted(table[i := e], used', leaked)
  {
    var table' := table[i := e];
    forall j | 0 <= j < |table| && j != i
      ensures Apart(table[j], e) && Apart(e, table[j])
    {
      if table[j].InUse() && e.InUse() {
        ApartFromFree(g, table, used, leaked, i, e, j);
      }
    }
    forall b: nat
      ensures b in used' <==> b in leaked || Owned(table', b)
      ensures b in leaked ==> !Owned(table', b)
    {
      OwnedAfter(table, i, e, b);
      if Owned(table, b) && Owns(table[i], b) {
        OthersDoNotOwn(g, table, i, b);
      }
    }
  }

  lemma ApartFromFree(g: Superblock, table: seq<FileEntry>, used: set<nat>, leaked: set<nat>, i: nat, e: FileEntry, j: nat)
    requires TableOk(g, table) && Accounted(table, used, leaked) && i < |table| && j < |table| && i != j
    requires EntryOk(g, e) && e.InUse() && table[j].InUse()
    requires forall b: nat :: Owns(e, b) ==> b !in used || Owns(table[i], b)
    ensures e.startBlock + e.blockCount <= table[j].startBlock || table[j].startBlock + table[j].blockCount <= e.startBlock
  {
    var f := table[j];
    var b: nat := if e.startBlock < f.startBlock then f.startBlock else e.startBlock;
    assert Apart(table[i], table[j]);
    assert Owns(f, b) ==> Owned(table, b);
    assert !(Owns(e, b) && Owns(f, b));
  }

  lemma OthersDoNotOwn(g: Superblock, table: seq<FileEntry>, i: nat, b: nat)
    requires TableOk(g, table) && i < |table| && Owns(table[i], b)
    ensures forall j :: 0 <= j < |table| && j != i ==> !Owns(table[j], b)
  {
    forall j | 0 <= j < |table| && j != i
      ensures !Owns(table[j], b)
    {
      assert Apart(table[i], table[j]);
    }
  }

  lemma OwnedAfter(table: seq<FileEntry>, i: nat, e: FileEntry, b: nat)
    requires i < |table|
    ensures Owned(table[i := e], b) <==> Owns(e, b) || exists j :: 0 <= j < |table| && j != i && Owns(table[j], b)
    ensures Owned(table, b) <==> Owns(table[i], b) || exists j :: 0 <= j < |table| && j != i && Owns(table[j], b)
  {
    var table' := table[i := e];
    if Owned(table', b) {
      var j :| 0 <= j < |table'| && Owns(table'[j], b);
      assert j != i ==> Owns(table[j], b);
    }
    if Owns(e, b) {
      assert Owns(table'[i], b);
    }
    if j :| 0 <= j < |table| && j != i && Owns(table[j], b) {
      assert Owns(table'[j], b);
    }
  }

  // ---- Views of files whose slot did not change ----

  /** Slot `j` holds the same file before and after. */
  ghost predicate SlotKept(g: Superblock, s: Sys, s': Sys, j: nat)
    requires |s.store.table| == |s'.store.table| && j < |s.store.table|
  {
    && s'.store.table[j].InUse() == s.store.table[j].InUse()
    && (s.store.table[j].InUse() ==>
          && s'.store.table[j].NameBytes() == s.store.table[j].NameBytes()
          && At(g, s.store.table[j].startBlock) + LengthOf(s, j) <= |s.store.disk|
          && At(g, s'.store.table[j].startBlock) + LengthOf(s', j) <= |s'.store.disk|
          && Content(g, s', j) == Content(g, s, j))
  }

  /** When all slots but `i` are kept, every name not used by slot `i` before or after shows the same bytes. */
  lemma OtherViewsKept(g: Superblock, s: Sys, s': Sys, i: nat, name: seq<byte>)
    requires FilesOk(g, s) && FilesOk(g, s') && i < MAX_ENTRIES
    requires forall j :: 0 <= j < MAX_ENTRIES && j != i ==> SlotKept(g, s, s', j)
    requires !s.store.table[i].IsNamed(name) && !s'.store.table[i].IsNamed(name)
    ensures View(g, s', name) == View(g, s, name)
  {
    match Find(s.store.table, name) {
      case FoundAt(k) =>
        assert SlotKept(g, s, s', k);
        FindUnique(g, s'.store.table, k);
      case NotFound =>
        match Find(s'.store.table, name) {
          case FoundAt(k) =>
            assert SlotKept(g, s, s', k);
            assert s.store.table[k].IsNamed(name);
          case NotFound =>
        }
    }
  }

  /** The view of the file in slot `i`. */
  lemma ViewOfSlot(g: Superblock, s: Sys, i: nat)
    requires FilesOk(g, s) && i < MAX_ENTRIES && s.store.table[i].InUse()
    ensures At(g, s.store.table[i].startBlock) + LengthOf(s, i) <= |s.store.disk|
    ensures View(g, s, s.store.table[i].NameBytes()) == Present(Content(g, s, i))
  {
    FindUnique(g, s.store.table, i);
    ContentInDisk(g, s, i);
  }

  /** A disk change outside an extent does not change bytes of the extent. */
  lemma ExtentUnchanged(g: Superblock, disk: seq<byte>, disk': seq<byte>, lo: nat, hi: nat, b: nat, blocks: nat, n: nat)
    requires SameOutside(disk, disk', lo, hi) && n <= Blocks(blocks, g.blockSize) && At(g, b + blocks) <= |disk|
    requires At(g, b + blocks) <= lo || hi <= At(g, b)
    ensures At(g, b) + n <= |disk|
    ensures ExtentBytes(g, disk', b, n) == ExtentBytes(g, disk, b, n)
  {
    AtAdd(g, b, blocks);
  }

  /** A used extent and a free run are apart on the disk. */
  lemma FreeRunApart(g: Superblock, table: seq<FileEntry>, used: set<nat>, leaked: set<nat>, j: nat, b: nat, n: nat)
    requires Accounted(table, used, leaked) && j < |table| && table[j].InUse() && table[j].blockCount >= 1
    requires FreeRun(used, b, n) && n >= 1
    ensures var e := table[j];
            At(g, e.startBlock + e.blockCount) <= At(g, b) || At(g, b + n) <= At(g, e.startBlock)
  {
    var e := table[j];
    var c: nat := if e.startBlock < b then b else e.startBlock;
    assert Owns(e, c) ==> Owned(table, c);
    assert e.startBlock + e.blockCount <= b || b + n <= e.startBlock;
    if e.startBlock + e.blockCount <= b {
      AtMono(g, e.startBlock + e.blockCount, b);
    } else {
      AtMono(g, b + n, e.startBlock);
    }
  }

  /** A write confined to data blocks keeps superblock, clean bitmap and clean table on the disk. */
  lemma MetadataKept(g: Superblock, s: Store, s': Store, lo: nat, hi: nat)
    requires StoreOk(g, s) && |s.table| == MAX_ENTRIES
    requires DiskStep(s, s', lo, hi) && At(g, 0) <= lo
    ensures SUPERBLOCK_SIZE <= |s'.disk| && s'.disk[..SUPERBLOCK_SIZE] == EncodeSuperblock(g)
    ensures WordsOnDisk(s.disk, BitmapAt(g), s.words) ==> WordsOnDisk(s'.disk, BitmapAt(g), s.words)
    ensures TableOnDisk(s.disk, TableAt(g), s.table) ==> TableOnDisk(s'.disk, TableAt(g), s.table)
  {
    DiskRegions(g);
    var at := TableAt(g);
    assert s'.disk[..SUPERBLOCK_SIZE] == s.disk[..SUPERBLOCK_SIZE];
    assert s'.disk[at..at + TABLE_SIZE] == s.disk[at..at + TABLE_SIZE];
  }
}
