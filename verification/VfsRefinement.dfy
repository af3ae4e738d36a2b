/** Every run of the file store refines a map from names to byte sequences. */
module VfsRefinement {
  import opened Bits
  import opened Bytes
  import opened Runs
  import opened RamDisks
  import opened BlockAlloc
  import opened FileTables
  import opened VfsModel
  import opened VfsInvariant

  /** An open handle's length fits a machine word and its bytes lie on the disk. */
  ghost predicate HandleLengthFits(g: Superblock, s: Sys, slot: nat)
    requires slot in s.open
  {
    && s.open[slot].byteLength < 0x1_0000_0000_0000_0000
    && Blocks(s.open[slot].startLba, g.blockSize) + s.open[slot].byteLength <= |s.store.disk|
  }

  /** In a consistent state every open handle meets the demands of the operations on it. */
  lemma HandlesFit(g: Superblock, s: Sys, slot: nat)
    requires FilesOk(g, s) && Accounted(s.store.table, Members(s.store.words), s.leaked) && slot in s.open
    ensures HandleLengthFits(g, s, slot) && HandleOk(g, s.store, s.open[slot])
    ensures At(g, s.store.table[slot].startBlock) == Blocks(s.open[slot].startLba, g.blockSize)
  {
    hide Blocks, Apart, Has;
    ContentInDisk(g, s, slot);
    OwnedBlocksUsed(s.store.table, Members(s.store.words), s.leaked, slot);
    EntryFits(g, s.store.table[slot]);
  }

  lemma EntryFits(g: Superblock, e: FileEntry)
    requires EntryOk(g, e) && e.InUse()
    ensures e.startBlock + e.blockCount <= g.dataBlocks
  {
  }

  lemma OwnedBlocksUsed(table: seq<FileEntry>, used: set<nat>, leaked: set<nat>, i: nat)
    requires Accounted(table, used, leaked) && i < |table| && table[i].InUse()
    ensures Range(table[i].startBlock, table[i].blockCount) <= used
  {
    forall b | b in Range(table[i].startBlock, table[i].blockCount)
      ensures b in used
    {
      assert Owns(table[i], b);
      assert Owned(table, b);
    }
  }

  // ---- Events of a run ----

  datatype Event =
    | Open(name: seq<byte>, create: bool, result: OpenResult)
    | Close(slot: nat)
    | Read(slot: nat, amount: nat, offset: nat, buf: seq<byte>, rc: Code)
    | Write(slot: nat, data: seq<byte>, offset: nat, rc: Code)
    | Truncate(slot: nat, size: nat)
    | Delete(name: seq<byte>)
    | Sync(slot: nat, rc: Code)

  /** No handle is open on the file called `name`. */
  ghost predicate NotOpen(s: Sys, name: seq<byte>) {
    match Find(s.store.table, name)
    case NotFound => true
    case FoundAt(i) => i !in s.open
  }

  /** One step of a run: clients open storable names, hold one handle a file, and delete only closed files. */
  ghost predicate SysStep(g: Superblock, s: Sys, ev: Event, s': Sys) {
    match ev
    case Open(name, create, r) =>
      && StorableName(name) && NotOpen(s, name)
      && OpenStep(g, s.store, s'.store, name, create, r)
      && s'.open == (if r.Opened? then s.open[r.handle.slot := r.handle] else s.open)
      && s'.leaked == (if r.Opened? then s.leaked else s.leaked + (Members(s'.store.words) - Members(s.store.words)))
    case Close(slot) =>
      && slot in s.open
      && CloseStep(s.store, s'.store, s.open[slot])
      && s'.open == s.open - {slot} && s'.leaked == s.leaked
    case Read(slot, amount, offset, buf, rc) =>
      && slot in s.open && amount > 0 && s' == s
      && ReadStep(g, s.store, s.open[slot], amount, offset, buf, rc)
    case Write(slot, data, offset, rc) =>
      && slot in s.open && slot in s'.open && |data| > 0
      && WriteStep(g, s.store, s'.store, s.open[slot], s'.open[slot], data, offset, rc)
      && s'.open == s.open[slot := s'.open[slot]] && s'.leaked == s.leaked
    case Truncate(slot, size) =>
      && slot in s.open && slot in s'.open
      && TruncateStep(g, s.store, s'.store, s.open[slot], s'.open[slot], size)
      && s'.open == s.open[slot := s'.open[slot]] && s'.leaked == s.leaked
    case Delete(name) =>
      && NotOpen(s, name)
      && DeleteStep(g, s.store, s'.store, name)
      && s'.open == s.open && s'.leaked == s.leaked
    case Sync(slot, rc) =>
      && slot in s.open
      && SyncStep(g, s.store, s'.store, s.open[slot], rc)
      && s'.open == s.open && s'.leaked == s.leaked
  }

  // ---- The abstract operations ----

  /** `before` with `data` written at `offset`; bytes of a gap past the end are not determined. */
  ghost predicate Written(before: seq<byte>, data: seq<byte>, offset: nat, after: seq<byte>) {
    if offset <= |before| then
      after == before[..offset] + data + (if offset + |data| <= |before| then before[offset + |data|..] else [])
    else
      |after| == offset + |data| && after[..|before|] == before && after[offset..] == data
  }

  /** The write failed: the length is as before and only the addressed blocks may hold other bytes,
      and they only when the device refused a write. */
  ghost predicate WriteFailed(g: Superblock, before: seq<byte>, data: seq<byte>, offset: nat, rc: Code, after: seq<byte>) {
    && g.blockSize > 0 && |data| > 0
    && var lo, hi := Blocks(FirstBlock(g, offset), g.blockSize), Blocks(BlocksEnd(g, offset, |data|), g.blockSize);
    && SameOutside(before, after, lo, hi)
    && (rc != IOERR_WRITE ==> after == before)
  }

  /** What a client of a name-to-bytes map expects of the event. */
  ghost predicate Refines(g: Superblock, s: Sys, ev: Event, s': Sys) {
    match ev
    case Open(name, create, r) =>
      && OthersKept(g, s, s', name)
      && OpenAnswer(g, s, name, create, r)
      && (View(g, s, name).Present? || r.OpenFailed? ==> View(g, s', name) == View(g, s, name))
      && (View(g, s, name).Absent? && r.Opened? ==> View(g, s', name) == Present([]))
      && (r.Opened? ==> r.handle.slot < |s'.store.table| && s'.store.table[r.handle.slot].IsNamed(name))
    case Close(slot) => AllKept(g, s, s')
    case Sync(slot, rc) => AllKept(g, s, s')
    case Delete(name) => OthersKept(g, s, s', name) && View(g, s', name) == Absent
    case Read(slot, amount, offset, buf, rc) =>
      && AllKept(g, s, s')
      && slot < |s.store.table|
      && var v := View(g, s, s.store.table[slot].NameBytes());
         v.Present? && ReadsSlice(v.bytes, amount, offset, buf, rc)
    case Truncate(slot, size) =>
      && slot < |s.store.table|
      && var name := s.store.table[slot].NameBytes();
      && OthersKept(g, s, s', name)
      && var v := View(g, s, name);
         v.Present? && View(g, s', name) == Present(if size <= |v.bytes| then v.bytes[..size] else v.bytes)
    case Write(slot, data, offset, rc) =>
      && slot < |s.store.table|
      && var name := s.store.table[slot].NameBytes();
      && OthersKept(g, s, s', name)
      && var v, v' := View(g, s, name), View(g, s', name);
         && v.Present? && v'.Present?
         && if rc == OK then Written(v.bytes, data, offset, v'.bytes)
            else WriteFailed(g, v.bytes, data, offset, rc, v'.bytes)
  }

  /** The answer to an open: an existing file opens, with its length; a missing one opens if it is to be created and
      there is room for it, in blocks and in the table. */
  ghost predicate OpenAnswer(g: Superblock, s: Sys, name: seq<byte>, create: bool, r: OpenResult) {
    var room := (exists b: nat :: b + INITIAL_ALLOC_BLOCKS <= g.dataBlocks && FreeRun(Members(s.store.words), b, INITIAL_ALLOC_BLOCKS))
                && exists i :: 0 <= i < |s.store.table| && !s.store.table[i].InUse();
    match View(g, s, name)
    case Present(bytes) => r.Opened? && r.handle.byteLength == |bytes|
    case Absent =>
      if !create then r == OpenFailed(CANTOPEN)
      else if room then r.Opened? && r.handle.byteLength == 0 && r.handle.blockCount == INITIAL_ALLOC_BLOCKS
      else r == OpenFailed(FULL)
  }

  ghost predicate OthersKept(g: Superblock, s: Sys, s': Sys, name: seq<byte>) {
    forall n :: n != name ==> View(g, s', n) == View(g, s, n)
  }

  ghost predicate AllKept(g: Superblock, s: Sys, s': Sys) {
    forall n :: View(g, s', n) == View(g, s, n)
  }

  /** A read returns the slice of the file, zero-filled past its end, and says whether it was short. */
  ghost predicate ReadsSlice(bytes: seq<byte>, amount: nat, offset: nat, buf: seq<byte>, rc: Code) {
    rc == OK || rc == IOERR_SHORT_READ ==>
      && (rc == OK <==> offset + amount <= |bytes|)
      && |buf| == amount
      && forall k :: 0 <= k < amount ==> buf[k] == if offset + k < |bytes| then bytes[offset + k] else 0
  }

  // ---- Slots that an operation leaves alone ----

  lemma SlotKeptByFreeRunWrite(g: Superblock, s: Sys, s': Sys, b: nat, n: nat, j: nat)
    requires FilesOk(g, s) && Accounted(s.store.table, Members(s.store.words), s.leaked) && |s'.store.table| == MAX_ENTRIES && j < MAX_ENTRIES
    requires FreeRun(Members(s.store.words), b, n) && n >= 1
    requires SameOutside(s.store.disk, s'.store.disk, At(g, b), At(g, b + n))
    requires s'.store.table[j] == s.store.table[j] && LengthOf(s', j) == LengthOf(s, j)
    ensures SlotKept(g, s, s', j)
  {
    var e := s.store.table[j];
    if e.InUse() {
      ContentInDisk(g, s, j);
      FreeRunApart(g, s.store.table, Members(s.store.words), s.leaked, j, b, n);
      ExtentUnchanged(g, s.store.disk, s'.store.disk, At(g, b), At(g, b + n), e.startBlock, e.blockCount, LengthOf(s, j));
    }
  }

  lemma SlotKeptSameDisk(g: Superblock, s: Sys, s': Sys, j: nat)
    requires FilesOk(g, s) && |s'.store.table| == MAX_ENTRIES && j < MAX_ENTRIES
    requires SameOutside(s.store.disk, s'.store.disk, 0, At(g, 0))
    requires s'.store.table[j].InUse() == s.store.table[j].InUse()
    requires s'.store.table[j].NameBytes() == s.store.table[j].NameBytes()
    requires s'.store.table[j].startBlock == s.store.table[j].startBlock
    requires s.store.table[j].InUse() ==> LengthOf(s', j) == LengthOf(s, j)
    ensures SlotKept(g, s, s', j)
  {
    var e := s.store.table[j];
    if e.InUse() {
      ContentInDisk(g, s, j);
      AtMono(g, 0, e.startBlock);
      ExtentUnchanged(g, s.store.disk, s'.store.disk, 0, At(g, 0), e.startBlock, e.blockCount, LengthOf(s, j));
    }
  }

  /** When every slot is kept, every name shows what it showed. */
  lemma AllSlotsKept(g: Superblock, s: Sys, s': Sys)
    requires FilesOk(g, s) && FilesOk(g, s')
    requires forall j :: 0 <= j < MAX_ENTRIES ==> SlotKept(g, s, s', j)
    ensures AllKept(g, s, s')
  {
    forall n
      ensures View(g, s', n) == View(g, s, n)
    {
      assert Apart(s.store.table[0], s.store.table[1]);
      assert SlotKept(g, s, s', 0) && SlotKept(g, s, s', 1);
      OtherViewsKept(g, s, s', if s.store.table[0].IsNamed(n) then 1 else 0, n);
    }
  }

  lemma OtherSlotsKept(g: Superblock, s: Sys, s': Sys, i: nat, name: seq<byte>)
    requires FilesOk(g, s) && FilesOk(g, s') && i < MAX_ENTRIES
    requires forall j :: 0 <= j < MAX_ENTRIES && j != i ==> SlotKept(g, s, s', j)
    requires s.store.table[i].InUse() ==> s.store.table[i].NameBytes() == name
    requires s'.store.table[i].InUse() ==> s'.store.table[i].NameBytes() == name
    ensures OthersKept(g, s, s', name)
  {
    forall n | n != name
      ensures View(g, s', n) == View(g, s, n)
    {
      OtherViewsKept(g, s, s', i, n);
    }
  }

  // ---- Keeping the invariant ----

  lemma OpenKeepsInv(g: Superblock, s: Sys, name: seq<byte>, create: bool, r: OpenResult, s': Sys)
    requires Inv(g, s) && SysStep(g, s, Open(name, create, r), s')
    ensures Inv(g, s')
    ensures Find(s.store.table, name).NotFound? && r.Opened? ==> FileAdded(s, name, r.handle, s')
    ensures r.OpenFailed? ==> s'.store.table == s.store.table && s'.store.disk == s.store.disk
  {
    hide StoreOk, CleanOk, LowestRun, GeometryOk, Members, Visible, FitsDisk, Has;
    if Find(s.store.table, name).NotFound? && s'.store != s.store {
      var b: nat :| LowestRun(Members(s.store.words), g.dataBlocks, INITIAL_ALLOC_BLOCKS, 1, b)
         && BitmapBecame(s.store, s'.store, Members(s.store.words) + Range(b, INITIAL_ALLOC_BLOCKS))
         && Created(g, s.store, s'.store, name, b, r);
      if r.OpenFailed? {
        LeakKeepsInv(g, s, b, s');
      } else {
        CreateKeepsInv(g, s, name, b, r.handle, s');
      }
    }
  }

  /** Exactly when opening loses blocks: the file is to be created, there are sixteen free blocks in a row,
      but no free slot. Then the lowest such run is lost. */
  lemma LeaksIff(g: Superblock, s: Sys, name: seq<byte>, create: bool, r: OpenResult, s': Sys)
    requires Inv(g, s) && SysStep(g, s, Open(name, create, r), s')
    ensures s'.leaked != s.leaked <==>
            && create && Find(s.store.table, name).NotFound?
            && (forall i :: 0 <= i < MAX_ENTRIES ==> s.store.table[i].InUse())
            && !NoRun(Members(s.store.words), g.dataBlocks, INITIAL_ALLOC_BLOCKS, 1)
    ensures s'.leaked != s.leaked ==>
              r == OpenFailed(FULL) && exists b: nat ::
                LowestRun(Members(s.store.words), g.dataBlocks, INITIAL_ALLOC_BLOCKS, 1, b) && s'.leaked == s.leaked + Range(b, INITIAL_ALLOC_BLOCKS)
  {
    hide StoreOk, CleanOk, GeometryOk, Members, Visible, FitsDisk, Has, HandlesOk, FindFrom, NewEntry;
    var used := Members(s.store.words);
    if Find(s.store.table, name).NotFound? && create && s'.store != s.store {
      var b: nat :| LowestRun(used, g.dataBlocks, INITIAL_ALLOC_BLOCKS, 1, b)
         && BitmapBecame(s.store, s'.store, used + Range(b, INITIAL_ALLOC_BLOCKS))
         && Created(g, s.store, s'.store, name, b, r);
      LowestRunIsARun(used, g.dataBlocks, INITIAL_ALLOC_BLOCKS, 1, b);
      assert b in Range(b, INITIAL_ALLOC_BLOCKS) && b !in used;
      assert Members(s'.store.words) - used == Range(b, INITIAL_ALLOC_BLOCKS);
      assert b !in s.leaked;
    } else {
      assert s'.store == s.store && s.leaked + (used - used) == s.leaked;
    }
  }

  /** An empty file called `name` took a free slot. */
  ghost predicate FileAdded(s: Sys, name: seq<byte>, h: Handle, s': Sys) {
    && h.slot < |s.store.table| && !s.store.table[h.slot].InUse()
    && |s'.store.table| == |s.store.table|
    && s'.store.table == s.store.table[h.slot := s'.store.table[h.slot]]
    && s'.store.table[h.slot].IsNamed(name) && h.byteLength == 0
    && s'.store.disk == s.store.disk && s'.open == s.open[h.slot := h]
  }

  /** The failed creation: sixteen blocks are used and owned by nobody. */
  lemma LeakKeepsInv(g: Superblock, s: Sys, b: nat, s': Sys)
    requires Inv(g, s)
    requires LowestRun(Members(s.store.words), g.dataBlocks, INITIAL_ALLOC_BLOCKS, 1, b)
    requires BitmapBecame(s.store, s'.store, Members(s.store.words) + Range(b, INITIAL_ALLOC_BLOCKS))
    requires s'.store == s.store.(words := s'.store.words, bitmapDirty := true) && s'.open == s.open
    requires s'.leaked == s.leaked + (Members(s'.store.words) - Members(s.store.words))
    ensures Inv(g, s') && s'.leaked == s.leaked + Range(b, INITIAL_ALLOC_BLOCKS)
  {
  }

  lemma CreateKeepsInv(g: Superblock, s: Sys, name: seq<byte>, b: nat, h: Handle, s': Sys)
    requires Inv(g, s) && StorableName(name) && Find(s.store.table, name).NotFound?
    requires LowestRun(Members(s.store.words), g.dataBlocks, INITIAL_ALLOC_BLOCKS, 1, b)
    requires BitmapBecame(s.store, s'.store, Members(s.store.words) + Range(b, INITIAL_ALLOC_BLOCKS))
    requires Created(g, s.store, s'.store, name, b, Opened(h)) && SameDisk(s.store, s'.store)
    requires s'.open == s.open[h.slot := h] && s'.leaked == s.leaked
    ensures Inv(g, s') && FileAdded(s, name, h, s')
  {
    NewEntryIs(s.store.table[h.slot], name, b, INITIAL_ALLOC_BLOCKS);
    EntryReplaced(g, s.store.table, Members(s.store.words), s.leaked, h.slot, s'.store.table[h.slot], Members(s'.store.words));
    SameDiskKeepsStore(g, s.store, s'.store);
    HandleAdded(g, s.store.table, s.open, h.slot, s'.store.table[h.slot], h);
  }

  lemma HandleAdded(g: Superblock, table: seq<FileEntry>, open: map<nat, Handle>, slot: nat, e: FileEntry, h: Handle)
    requires HandlesOk(g, table, open) && slot < |table| && !table[slot].InUse() && e.InUse()
    requires h == Handle(slot, g.dataStart + e.startBlock, e.blockCount, 0)
    ensures HandlesOk(g, table[slot := e], open[slot := h])
  {
  }

  lemma NewEntryIs(slot: FileEntry, name: seq<byte>, b: u64, n: u64)
    requires StorableName(name)
    ensures var e := NewEntry(slot, name, b, n);
            e.InUse() && e.NameBytes() == name && e.startBlock == b && e.blockCount == n && e.byteLength == 0
  {
    NameKeptIff(slot.name, name);
  }

  /** Recording a length that fits the extent changes nothing else. */
  lemma LengthRecorded(g: Superblock, table: seq<FileEntry>, used: set<nat>, leaked: set<nat>, i: nat, n: u64)
    requires TableOk(g, table) && Accounted(table, used, leaked)
    requires i < |table| && table[i].InUse() && n <= Blocks(table[i].blockCount, g.blockSize)
    ensures TableOk(g, table[i := table[i].(byteLength := n)])
    ensures Accounted(table[i := table[i].(byteLength := n)], used, leaked)
  {
    var e := table[i].(byteLength := n);
    forall j | 0 <= j < |table| && j != i && table[j].InUse() && e.InUse()
      ensures table[j].NameBytes() != e.NameBytes()
    {
      assert Apart(table[j], table[i]);
    }
    forall b: nat | Owns(e, b)
      ensures Owns(table[i], b) && b in used
    {
      assert Owns(table[i], b);
      assert Owned(table, b);
    }
    EntryReplaced(g, table, used, leaked, i, e, used);
  }

  lemma CloseKeepsInv(g: Superblock, s: Sys, slot: nat, s': Sys)
    requires Inv(g, s) && SysStep(g, s, Close(slot), s')
    ensures Inv(g, s')
  {
    hide Blocks, EntryOk, Apart, Owned, Visible, FitsDisk, GeometryOk, Range;
    LengthRecorded(g, s.store.table, Members(s.store.words), s.leaked, slot, s.open[slot].byteLength);
  }

  lemma DeleteKeepsInv(g: Superblock, s: Sys, name: seq<byte>, s': Sys)
    requires Inv(g, s) && SysStep(g, s, Delete(name), s')
    ensures Inv(g, s')
  {
    match Find(s.store.table, name) {
      case NotFound =>
      case FoundAt(i) =>
        EntryReplaced(g, s.store.table, Members(s.store.words), s.leaked, i, EMPTY_ENTRY, Members(s'.store.words));
        SameDiskKeepsStore(g, s.store, s'.store);
    }
  }

  /** Giving back the tail of an extent keeps the table's invariants. */
  lemma TailFreed(g: Superblock, table: seq<FileEntry>, used: set<nat>, leaked: set<nat>, i: nat, kept: u64, size: u64, used': set<nat>)
    requires TableOk(g, table) && Accounted(table, used, leaked) && i < |table| && table[i].InUse()
    requires 1 <= kept < table[i].blockCount && size <= Blocks(kept, g.blockSize)
    requires used' == used - Range(table[i].startBlock + kept, table[i].blockCount - kept)
    ensures TableOk(g, table[i := table[i].(blockCount := kept, byteLength := size)])
    ensures Accounted(table[i := table[i].(blockCount := kept, byteLength := size)], used', leaked)
  {
    var e, e' := table[i], table[i].(blockCount := kept, byteLength := size);
    forall j | 0 <= j < |table| && j != i && table[j].InUse() && e'.InUse()
      ensures table[j].NameBytes() != e'.NameBytes()
    {
      assert Apart(table[j], e);
    }
    forall b: nat
      ensures b in used' <==> Owns(e', b) || (b in used && !Owns(e, b))
      ensures Owns(e', b) ==> Owns(e, b)
    {
      if Owns(e, b) {
        assert Owned(table, b);
      }
    }
    EntryReplaced(g, table, used, leaked, i, e', used');
  }

  lemma TruncateKeepsInv(g: Superblock, s: Sys, slot: nat, size: nat, s': Sys)
    requires Inv(g, s) && SysStep(g, s, Truncate(slot, size), s')
    ensures Inv(g, s')
  {
    hide Blocks, BlockOf, EntryOk, Apart, Owned, Visible, FitsDisk, GeometryOk;
    var kept := BlocksKept(g, size);
    KeptBlocksHold(g, size);
    if size <= s.open[slot].byteLength && kept < s.open[slot].blockCount {
      TailFreed(g, s.store.table, Members(s.store.words), s.leaked, slot, kept, size, Members(s'.store.words));
      SameDiskKeepsStore(g, s.store, s'.store);
      HandleShrunk(g, s.store.table, s.open, slot, kept, size);
    }
  }

  lemma SameDiskKeepsStore(g: Superblock, s: Store, s': Store)
    requires StoreOk(g, s) && CleanOk(g, s) && SameDisk(s, s')
    requires |s'.words| == |s.words| && Members(s'.words) <= Range(0, g.dataBlocks) && s'.bitmapDirty && s'.tableDirty
    ensures StoreOk(g, s') && CleanOk(g, s')
  {
  }

  lemma HandleShrunk(g: Superblock, table: seq<FileEntry>, open: map<nat, Handle>, slot: nat, kept: u64, size: u64)
    requires HandlesOk(g, table, open) && slot in open && size <= Blocks(kept, g.blockSize)
    ensures HandlesOk(g, table[slot := table[slot].(blockCount := kept, byteLength := size)],
                      open[slot := open[slot].(byteLength := size, blockCount := kept)])
  {
  }

  /** The blocks kept by a truncation hold the remaining bytes. */
  lemma KeptBlocksHold(g: Superblock, size: nat)
    requires g.blockSize > 0
    ensures 1 <= BlocksKept(g, size) && size <= Blocks(BlocksKept(g, size), g.blockSize)
  {
    if size > 0 {
      BlockOfBounds(size - 1, g.blockSize);
    }
  }

  lemma SyncKeepsInv(g: Superblock, s: Sys, slot: nat, rc: Code, s': Sys)
    requires Inv(g, s) && SysStep(g, s, Sync(slot, rc), s')
    ensures Inv(g, s')
  {
    hide Blocks, EntryOk, Apart, Owned, Visible, FitsDisk, GeometryOk;
    if s'.store != s.store {
      LengthRecorded(g, s.store.table, Members(s.store.words), s.leaked, slot, s.open[slot].byteLength);
      SyncKeepsStore(g, s.store, s'.store, s.open[slot], rc);
    }
  }

  lemma SyncKeepsStore(g: Superblock, s: Store, s': Store, h: Handle, rc: Code)
    requires StoreOk(g, s) && CleanOk(g, s) && |s.table| == MAX_ENTRIES && SyncStep(g, s, s', h, rc) && s' != s
    ensures StoreOk(g, s') && CleanOk(g, s')
  {
    DiskRegions(g);
    assert s'.disk[..SUPERBLOCK_SIZE] == s.disk[..SUPERBLOCK_SIZE];
  }

  // ---- Writing ----

  /** Moving a file to a free run keeps the table's invariants. */
  lemma ExtentMoved(g: Superblock, table: seq<FileEntry>, used: set<nat>, leaked: set<nat>, i: nat, b: u64, n: u64, used': set<nat>)
    requires TableOk(g, table) && Accounted(table, used, leaked) && i < |table| && table[i].InUse()
    requires n > table[i].blockCount && LowestRun(used, g.dataBlocks, n, 1, b)
    requires used' == used + Range(b, n) - Range(table[i].startBlock, table[i].blockCount)
    ensures TableOk(g, table[i := table[i].(startBlock := b, blockCount := n)])
    ensures Accounted(table[i := table[i].(startBlock := b, blockCount := n)], used', leaked)
  {
    var e, e' := table[i], table[i].(startBlock := b, blockCount := n);
    BlocksMono(e.blockCount, n, g.blockSize);
    forall j | 0 <= j < |table| && j != i && table[j].InUse() && e'.InUse()
      ensures table[j].NameBytes() != e'.NameBytes()
    {
      assert Apart(table[j], e);
    }
    forall c: nat
      ensures c in used' <==> Owns(e', c) || (c in used && !Owns(e, c))
      ensures Owns(e', c) ==> c !in used
    {
      if Owns(e, c) {
        assert Owned(table, c);
      }
    }
    EntryReplaced(g, table, used, leaked, i, e', used');
  }

  lemma GrowKeepsInv(g: Superblock, s: Sys, slot: nat, needed: u64, b: u64, s': Sys)
    requires Inv(g, s) && slot in s.open && slot in s'.open && needed > s.open[slot].blockCount
    requires Relocated(g, s.store, s'.store, s.open[slot], s'.open[slot], needed, b)
    requires s'.open == s.open[slot := s'.open[slot]] && s'.leaked == s.leaked
    ensures Inv(g, s')
  {
    var e := s.store.table[slot];
    ExtentMoved(g, s.store.table, Members(s.store.words), s.leaked, slot, b, needed, Members(s'.store.words));
    AtMono(g, 0, b);
    MetadataKept(g, s.store, s'.store, At(g, b), At(g, b + needed));
    HandleMoved(g, s.store.table, s.open, slot, b, needed);
  }

  lemma HandleMoved(g: Superblock, table: seq<FileEntry>, open: map<nat, Handle>, slot: nat, b: u64, n: u64)
    requires HandlesOk(g, table, open) && slot in open && n > table[slot].blockCount
    ensures HandlesOk(g, table[slot := table[slot].(startBlock := b, blockCount := n)],
                      open[slot := open[slot].(startLba := g.dataStart + b, blockCount := n)])
  {
    BlocksMono(table[slot].blockCount, n, g.blockSize);
  }

  lemma GrowFailureKeepsInv(g: Superblock, s: Sys, needed: nat, b: nat, s': Sys)
    requires Inv(g, s) && GrowthUndone(g, s.store, s'.store, needed, b)
    requires s'.open == s.open && s'.leaked == s.leaked
    ensures Inv(g, s')
  {
    AtMono(g, 0, b);
    MetadataKept(g, s.store, s'.store, At(g, b), At(g, b + needed));
  }

  /** The blocks of a transfer hold the transferred bytes. */
  lemma TransferBlocks(g: Superblock, offset: nat, amount: nat)
    requires g.blockSize > 0 && amount > 0
    ensures FirstBlock(g, offset) < BlocksEnd(g, offset, amount)
    ensures Blocks(FirstBlock(g, offset), g.blockSize) <= offset
    ensures offset + amount <= Blocks(BlocksEnd(g, offset, amount), g.blockSize)
  {
    BlockOfBounds(offset, g.blockSize);
    BlockOfBounds(offset + amount - 1, g.blockSize);
    BlockOfMono(offset, offset + amount - 1, g.blockSize);
  }

  /** Blocks `lo..hi` of an extent lie inside it. */
  lemma BlocksInExtent(g: Superblock, b: nat, lo: nat, hi: nat, blocks: nat)
    requires lo <= hi <= blocks
    ensures At(g, b) <= At(g, b + lo) <= At(g, b + hi) <= At(g, b + blocks)
    ensures At(g, b + lo) == At(g, b) + Blocks(lo, g.blockSize) && At(g, b + hi) == At(g, b) + Blocks(hi, g.blockSize)
    ensures Blocks(hi, g.blockSize) <= Blocks(blocks, g.blockSize)
  {
    hide *;
    BlocksMono(hi, blocks, g.blockSize);
    AtAdd(g, b, lo);
    AtAdd(g, b, hi);
    AtMono(g, b, b + lo);
    AtMono(g, b + lo, b + hi);
    AtMono(g, b + hi, b + blocks);
  }

  /** Where an overwrite of `amount` bytes at `offset` lands: inside the file's extent, after the metadata. */
  lemma OverwriteRange(g: Superblock, e: FileEntry, startLba: nat, offset: nat, amount: nat)
    requires GeometryOk(g) && EntryOk(g, e) && e.InUse() && startLba == g.dataStart + e.startBlock
    requires amount > 0 && BlocksEnd(g, offset, amount) <= e.blockCount
    ensures var lo, hi := Blocks(startLba + FirstBlock(g, offset), g.blockSize), Blocks(startLba + BlocksEnd(g, offset, amount), g.blockSize);
            && At(g, 0) <= At(g, e.startBlock) <= lo <= hi <= At(g, e.startBlock + e.blockCount)
            && lo == At(g, e.startBlock) + Blocks(FirstBlock(g, offset), g.blockSize)
            && hi == At(g, e.startBlock) + Blocks(BlocksEnd(g, offset, amount), g.blockSize)
            && lo <= At(g, e.startBlock) + offset && At(g, e.startBlock) + offset + amount <= hi
    ensures offset + amount <= Blocks(e.blockCount, g.blockSize)
    ensures Blocks(startLba, g.blockSize) == At(g, e.startBlock)
  {
    hide Blocks, BlockOf, FirstBlock, BlocksEnd;
    TransferBlocks(g, offset, amount);
    BlocksInExtent(g, e.startBlock, FirstBlock(g, offset), BlocksEnd(g, offset, amount), e.blockCount);
    assert startLba + FirstBlock(g, offset) == g.dataStart + (e.startBlock + FirstBlock(g, offset));
    assert startLba + BlocksEnd(g, offset, amount) == g.dataStart + (e.startBlock + BlocksEnd(g, offset, amount));
    AtMono(g, 0, e.startBlock);
  }

  /** What an overwrite changes besides the data it was given. */
  lemma OverwriteFrame(g: Superblock, s: Store, s': Store, h: Handle, h': Handle, data: seq<byte>, offset: nat, rc: Code)
      returns (lo: nat, hi: nat)
    requires GeometryOk(g) && h.slot < |s.table| && s.table[h.slot].InUse() && EntryOk(g, s.table[h.slot])
    requires h.startLba == g.dataStart + s.table[h.slot].startBlock && h.byteLength <= Blocks(s.table[h.slot].blockCount, g.blockSize)
    requires |data| > 0 && BlocksEnd(g, offset, |data|) <= s.table[h.slot].blockCount
    requires OverwriteStep(g, s, s', h, h', data, offset, rc)
    ensures s' == s.(disk := s'.disk, trace := s'.trace) && DiskStep(s, s', lo, hi)
    ensures lo == At(g, s.table[h.slot].startBlock) + Blocks(FirstBlock(g, offset), g.blockSize)
    ensures hi == At(g, s.table[h.slot].startBlock) + Blocks(BlocksEnd(g, offset, |data|), g.blockSize)
    ensures At(g, 0) <= lo && hi <= At(g, s.table[h.slot].startBlock + s.table[h.slot].blockCount)
    ensures h' == h.(byteLength := h'.byteLength) && h.byteLength <= h'.byteLength <= Blocks(s.table[h.slot].blockCount, g.blockSize)
  {
    OverwriteRange(g, s.table[h.slot], h.startLba, offset, |data|);
    lo := Blocks(h.startLba + FirstBlock(g, offset), g.blockSize);
    hi := Blocks(h.startLba + BlocksEnd(g, offset, |data|), g.blockSize);
  }

  lemma OverwriteKeepsInv(g: Superblock, s: Sys, slot: nat, data: seq<byte>, offset: nat, rc: Code, s': Sys)
    requires Inv(g, s) && slot in s.open && slot in s'.open && |data| > 0
    requires BlocksEnd(g, offset, |data|) <= s.open[slot].blockCount
    requires OverwriteStep(g, s.store, s'.store, s.open[slot], s'.open[slot], data, offset, rc)
    requires s'.open == s.open[slot := s'.open[slot]] && s'.leaked == s.leaked
    ensures Inv(g, s')
  {
    var lo, hi := OverwriteFrame(g, s.store, s'.store, s.open[slot], s'.open[slot], data, offset, rc);
    FrameKeepsInv(g, s, slot, lo, hi, s');
  }

  lemma FrameKeepsInv(g: Superblock, s: Sys, slot: nat, lo: nat, hi: nat, s': Sys)
    requires Inv(g, s) && slot in s.open && slot in s'.open && s'.leaked == s.leaked
    requires s'.store == s.store.(disk := s'.store.disk, trace := s'.store.trace)
    requires DiskStep(s.store, s'.store, lo, hi) && At(g, 0) <= lo
    requires s'.open == s.open[slot := s.open[slot].(byteLength := s'.open[slot].byteLength)]
    requires s'.open[slot].byteLength <= Blocks(s.store.table[slot].blockCount, g.blockSize)
    ensures Inv(g, s')
  {
    OverwriteKeepsStore(g, s.store, s'.store, lo, hi);
    HandleLengthened(g, s.store.table, s.open, slot, s'.open[slot].byteLength);
  }

  lemma OverwriteKeepsStore(g: Superblock, s: Store, s': Store, lo: nat, hi: nat)
    requires StoreOk(g, s) && CleanOk(g, s) && |s.table| == MAX_ENTRIES
    requires s' == s.(disk := s'.disk, trace := s'.trace) && DiskStep(s, s', lo, hi) && At(g, 0) <= lo
    ensures StoreOk(g, s') && CleanOk(g, s')
  {
    MetadataKept(g, s, s', lo, hi);
  }

  lemma HandleLengthened(g: Superblock, table: seq<FileEntry>, open: map<nat, Handle>, slot: nat, n: nat)
    requires HandlesOk(g, table, open) && slot in open && n <= Blocks(table[slot].blockCount, g.blockSize)
    ensures HandlesOk(g, table, open[slot := open[slot].(byteLength := n)])
  {
  }

  lemma WriteKeepsInv(g: Superblock, s: Sys, slot: nat, data: seq<byte>, offset: nat, rc: Code, s': Sys)
    requires Inv(g, s) && SysStep(g, s, Write(slot, data, offset, rc), s')
    ensures Inv(g, s')
  {
    var h, h', needed := s.open[slot], s'.open[slot], BlocksEnd(g, offset, |data|);
    if needed <= h.blockCount {
      OverwriteKeepsInv(g, s, slot, data, offset, rc, s');
    } else if rc != OK && GrowStep(g, s.store, s'.store, h, h', needed, rc) {
      FailedGrowthKeepsInv(g, s, slot, needed, rc, s');
    } else {
      var s1, b := GrownSystem(g, s, slot, data, offset, rc, s');
      GrowKeepsInv(g, s, slot, needed, b, s1);
      OverwriteKeepsInv(g, s1, slot, data, offset, rc, s');
    }
  }

  lemma FailedGrowthKeepsInv(g: Superblock, s: Sys, slot: nat, needed: nat, rc: Code, s': Sys)
    requires Inv(g, s) && slot in s.open && slot in s'.open && rc != OK
    requires GrowStep(g, s.store, s'.store, s.open[slot], s'.open[slot], needed, rc)
    requires s'.open == s.open[slot := s'.open[slot]] && s'.leaked == s.leaked
    ensures Inv(g, s') && s'.open == s.open
  {
    assert s'.open == s.open;
    if rc == FULL || rc == IOERR {
      assert s' == s;
    } else {
      var b: nat :| GrowthUndone(g, s.store, s'.store, needed, b);
      GrowFailureKeepsInv(g, s, needed, b, s');
    }
  }

  /** The system between relocation and the write proper. */
  lemma GrownSystem(g: Superblock, s: Sys, slot: nat, data: seq<byte>, offset: nat, rc: Code, s': Sys) returns (s1: Sys, b: u64)
    requires slot in s.open && slot in s'.open
    requires GrownThenWritten(g, s.store, s'.store, s.open[slot], s'.open[slot], data, offset, rc)
    requires s'.open == s.open[slot := s'.open[slot]] && s'.leaked == s.leaked
    ensures slot in s1.open && s1.open == s.open[slot := s1.open[slot]] && s1.leaked == s.leaked
    ensures BlocksEnd(g, offset, |data|) < 0x1_0000_0000_0000_0000
    ensures Relocated(g, s.store, s1.store, s.open[slot], s1.open[slot], BlocksEnd(g, offset, |data|), b)
    ensures OverwriteStep(g, s1.store, s'.store, s1.open[slot], s'.open[slot], data, offset, rc)
    ensures s'.open == s1.open[slot := s'.open[slot]] && s'.leaked == s1.leaked
  {
    hide Relocated, OverwriteStep, BlocksEnd;
    var needed := BlocksEnd(g, offset, |data|);
    var store1: Store, h1: Handle :|
      GrowStep(g, s.store, store1, s.open[slot], h1, needed, OK) && OverwriteStep(g, store1, s'.store, h1, s'.open[slot], data, offset, rc);
    s1 := Sys(store1, s.open[slot := h1], s.leaked);
    b :| Relocated(g, s.store, store1, s.open[slot], h1, needed, b);
  }

  /** Every step keeps the invariant. */
  lemma StepKeepsInv(g: Superblock, s: Sys, ev: Event, s': Sys)
    requires Inv(g, s) && SysStep(g, s, ev, s')
    ensures Inv(g, s')
  {
    match ev
    case Open(name, create, r) => OpenKeepsInv(g, s, name, create, r, s');
    case Close(slot) => CloseKeepsInv(g, s, slot, s');
    case Read(_, _, _, _, _) =>
    case Write(slot, data, offset, rc) => WriteKeepsInv(g, s, slot, data, offset, rc, s');
    case Truncate(slot, size) => TruncateKeepsInv(g, s, slot, size, s');
    case Delete(name) => DeleteKeepsInv(g, s, name, s');
    case Sync(slot, rc) => SyncKeepsInv(g, s, slot, rc, s');
  }

  // ---- What clients see ----

  /** Same data blocks, and each slot keeps its name, extent and length. */
  ghost predicate SlotsAlike(g: Superblock, s: Sys, s': Sys, j: nat)
    requires |s.store.table| == |s'.store.table| && j < |s.store.table|
  {
    var e, e' := s.store.table[j], s'.store.table[j];
    && e'.InUse() == e.InUse() && e'.NameBytes() == e.NameBytes() && e'.startBlock == e.startBlock
    && (e.InUse() ==> LengthOf(s', j) == LengthOf(s, j))
  }

  lemma AllAlike(g: Superblock, s: Sys, s': Sys)
    requires FilesOk(g, s) && FilesOk(g, s')
    requires SameOutside(s.store.disk, s'.store.disk, 0, At(g, 0))
    requires forall j :: 0 <= j < MAX_ENTRIES ==> SlotsAlike(g, s, s', j)
    ensures AllKept(g, s, s')
  {
    forall j | 0 <= j < MAX_ENTRIES
      ensures SlotKept(g, s, s', j)
    {
      assert SlotsAlike(g, s, s', j);
      SlotKeptSameDisk(g, s, s', j);
    }
    AllSlotsKept(g, s, s');
  }

  lemma OthersAlike(g: Superblock, s: Sys, s': Sys, i: nat, name: seq<byte>)
    requires FilesOk(g, s) && FilesOk(g, s') && i < MAX_ENTRIES
    requires SameOutside(s.store.disk, s'.store.disk, 0, At(g, 0))
    requires forall j :: 0 <= j < MAX_ENTRIES && j != i ==> SlotsAlike(g, s, s', j)
    requires s.store.table[i].InUse() ==> s.store.table[i].NameBytes() == name
    requires s'.store.table[i].InUse() ==> s'.store.table[i].NameBytes() == name
    ensures OthersKept(g, s, s', name)
  {
    forall j | 0 <= j < MAX_ENTRIES && j != i
      ensures SlotKept(g, s, s', j)
    {
      assert SlotsAlike(g, s, s', j);
      SlotKeptSameDisk(g, s, s', j);
    }
    OtherSlotsKept(g, s, s', i, name);
  }

  lemma OpenRefines(g: Superblock, s: Sys, name: seq<byte>, create: bool, r: OpenResult, s': Sys)
    requires FilesOk(g, s) && FilesOk(g, s') && SysStep(g, s, Open(name, create, r), s')
    requires Find(s.store.table, name).NotFound? && r.Opened? ==> FileAdded(s, name, r.handle, s')
    requires r.OpenFailed? ==> s'.store.table == s.store.table && s'.store.disk == s.store.disk
    ensures Refines(g, s, Open(name, create, r), s')
  {
    OpenAnswered(g, s, name, create, r, s');
    hide OpenAnswer;
    match Find(s.store.table, name) {
      case NotFound =>
        if r.Opened? {
          EmptyFileSeen(g, s, name, r.handle, s');
        } else {
          AllAlike(g, s, s');
        }
      case FoundAt(i) =>
        AllAlike(g, s, s');
        ViewOfSlot(g, s, i);
    }
  }

  lemma OpenAnswered(g: Superblock, s: Sys, name: seq<byte>, create: bool, r: OpenResult, s': Sys)
    requires FilesOk(g, s) && SysStep(g, s, Open(name, create, r), s')
    ensures OpenAnswer(g, s, name, create, r)
  {
    var used := Members(s.store.words);
    match Find(s.store.table, name) {
      case FoundAt(i) => ViewOfSlot(g, s, i);
      case NotFound =>
        hide Members, Range, FilesOk, FindFrom, NewEntry, Visible, FitsDisk;
        if create {
          if s'.store == s.store {
            NoRunMeans(used, g.dataBlocks);
          } else {
            var b: nat :| LowestRun(used, g.dataBlocks, INITIAL_ALLOC_BLOCKS, 1, b) && Created(g, s.store, s'.store, name, b, r);
            assert FreeRun(used, b, INITIAL_ALLOC_BLOCKS);
          }
        }
    }
  }

  lemma NoRunMeans(used: set<nat>, total: nat)
    requires NoRun(used, total, INITIAL_ALLOC_BLOCKS, 1)
    ensures forall b: nat :: b + INITIAL_ALLOC_BLOCKS <= total ==> !FreeRun(used, b, INITIAL_ALLOC_BLOCKS)
  {
    hide FreeRun;
    forall b: nat | b + INITIAL_ALLOC_BLOCKS <= total
      ensures !FreeRun(used, b, INITIAL_ALLOC_BLOCKS)
    {
      assert b % 1 == 0;
    }
  }

  lemma EmptyFileSeen(g: Superblock, s: Sys, name: seq<byte>, h: Handle, s': Sys)
    requires FilesOk(g, s) && FilesOk(g, s') && FileAdded(s, name, h, s')
    ensures OthersKept(g, s, s', name) && View(g, s', name) == Present([])
  {
    OthersAlike(g, s, s', h.slot, name);
    ViewOfSlot(g, s', h.slot);
  }

  lemma DeleteRefines(g: Superblock, s: Sys, name: seq<byte>, s': Sys)
    requires FilesOk(g, s) && FilesOk(g, s') && SysStep(g, s, Delete(name), s')
    ensures Refines(g, s, Delete(name), s')
  {
    match Find(s.store.table, name) {
      case NotFound =>
        assert s' == s;
      case FoundAt(i) =>
        OthersAlike(g, s, s', i, name);
        forall j | 0 <= j < MAX_ENTRIES
          ensures !s'.store.table[j].IsNamed(name)
        {
          assert j == i || Apart(s.store.table[j], s.store.table[i]);
        }
    }
  }

  lemma TruncateRefines(g: Superblock, s: Sys, slot: nat, size: nat, s': Sys)
    requires FilesOk(g, s) && FilesOk(g, s') && SysStep(g, s, Truncate(slot, size), s')
    ensures Refines(g, s, Truncate(slot, size), s')
  {
    hide Blocks, BlockOf, EntryOk, Apart, OthersKept;
    var name := s.store.table[slot].NameBytes();
    HandleChanged(g, s, s', slot);
    assert View(g, s, name).Present? && View(g, s', name)
           == Present(if size <= |View(g, s, name).bytes| then View(g, s, name).bytes[..size] else View(g, s, name).bytes) by {
      ViewOfSlot(g, s, slot);
      ViewOfSlot(g, s', slot);
      if size <= s.open[slot].byteLength {
        ExtentPrefix(g, s.store.disk, s.store.table[slot].startBlock, s.open[slot].byteLength, size);
      }
    }
  }

  /** Only one file's length and block count changed. */
  lemma HandleChanged(g: Superblock, s: Sys, s': Sys, slot: nat)
    requires FilesOk(g, s) && FilesOk(g, s') && slot in s.open && slot in s'.open
    requires s'.store.disk == s.store.disk && s'.open == s.open[slot := s'.open[slot]]
    requires s'.store.table == s.store.table[slot := s'.store.table[slot]]
    requires s'.store.table[slot].NameBytes() == s.store.table[slot].NameBytes()
    ensures OthersKept(g, s, s', s.store.table[slot].NameBytes())
  {
    OthersAlike(g, s, s', slot, s.store.table[slot].NameBytes());
  }

  lemma ReadRefines(g: Superblock, s: Sys, slot: nat, amount: nat, offset: nat, buf: seq<byte>, rc: Code)
    requires FilesOk(g, s) && slot in s.open && amount > 0 && ReadStep(g, s.store, s.open[slot], amount, offset, buf, rc)
    ensures Refines(g, s, Read(slot, amount, offset, buf, rc), s)
  {
    hide Blocks, EntryOk, Apart;
    var h, e := s.open[slot], s.store.table[slot];
    ViewOfSlot(g, s, slot);
    ReadBytes(s.store.disk, At(g, e.startBlock), h.byteLength, amount, offset, buf, rc);
  }

  lemma ReadBytes(disk: seq<byte>, at: nat, n: nat, amount: nat, offset: nat, buf: seq<byte>, rc: Code)
    requires at + n <= |disk|
    requires var content := disk[at..at + n];
      if offset >= n then rc == IOERR_SHORT_READ && buf == Zeros(amount) && amount > 0
      else if rc == OK then offset + amount <= n && buf == content[offset..offset + amount]
      else if rc == IOERR_SHORT_READ then
        offset + amount > n && buf == content[offset..] + Zeros(offset + amount - n)
      else true
    ensures ReadsSlice(disk[at..at + n], amount, offset, buf, rc)
  {
  }

  /** Splicing into the disk at a file's position splices into the file. */
  lemma SpliceSlice(disk: seq<byte>, at: nat, n: nat, offset: nat, data: seq<byte>, n': nat)
    requires at + n <= |disk| && at + offset + |data| <= |disk|
    requires n' == if offset + |data| > n then offset + |data| else n
    ensures at + n' <= |disk|
    ensures Written(disk[at..at + n], data, offset, Splice(disk, at + offset, data)[at..at + n'])
  {
    var d' := Splice(disk, at + offset, data);
    var before, after, end := disk[at..at + n], d'[at..at + n'], offset + |data|;
    SliceOfSlice(d', at, at + n', offset, end);
    assert after[offset..end] == data;
    var k := if offset <= n then offset else n;
    SpliceAround(disk, at + offset, data, at, at + k);
    SliceOfSlice(d', at, at + n', 0, k);
    SliceOfSlice(disk, at, at + n, 0, k);
    assert after[..k] == before[..k];
    if offset <= n {
      SpliceTail(disk, at, n, offset, data, n');
    } else {
      assert before[..k] == before && after[offset..] == after[offset..end];
    }
  }

  lemma SpliceTail(disk: seq<byte>, at: nat, n: nat, offset: nat, data: seq<byte>, n': nat)
    requires at + n <= |disk| && at + offset + |data| <= |disk| && offset <= n
    requires n' == if offset + |data| > n then offset + |data| else n
    requires Splice(disk, at + offset, data)[at..at + n'][..offset] == disk[at..at + n][..offset]
    requires Splice(disk, at + offset, data)[at..at + n'][offset..offset + |data|] == data
    ensures Written(disk[at..at + n], data, offset, Splice(disk, at + offset, data)[at..at + n'])
  {
    var d' := Splice(disk, at + offset, data);
    var before, after, end := disk[at..at + n], d'[at..at + n'], offset + |data|;
    if end <= n {
      SpliceAround(disk, at + offset, data, at + end, at + n);
      SliceOfSlice(d', at, at + n, end, n);
      SliceOfSlice(disk, at, at + n, end, n);
      assert after[end..] == before[end..];
      assert after == after[..offset] + after[offset..end] + after[end..];
    } else {
      assert after == after[..offset] + after[offset..end];
    }
  }

  /** A file whose extent is apart from the written one is kept. */
  lemma SlotKeptByOverwrite(g: Superblock, s: Sys, s': Sys, i: nat, lo: nat, hi: nat, j: nat)
    requires FilesOk(g, s) && |s'.store.table| == MAX_ENTRIES && i < MAX_ENTRIES && j < MAX_ENTRIES && i != j
    requires s.store.table[i].InUse() && SameOutside(s.store.disk, s'.store.disk, lo, hi)
    requires At(g, s.store.table[i].startBlock) <= lo && hi <= At(g, s.store.table[i].startBlock + s.store.table[i].blockCount)
    requires s'.store.table[j] == s.store.table[j] && LengthOf(s', j) == LengthOf(s, j)
    ensures SlotKept(g, s, s', j)
  {
    var e, f := s.store.table[i], s.store.table[j];
    if f.InUse() {
      ContentInDisk(g, s, j);
      assert Apart(e, f);
      if e.startBlock + e.blockCount <= f.startBlock {
        AtMono(g, e.startBlock + e.blockCount, f.startBlock);
      } else {
        AtMono(g, f.startBlock + f.blockCount, e.startBlock);
      }
      ExtentUnchanged(g, s.store.disk, s'.store.disk, lo, hi, f.startBlock, f.blockCount, LengthOf(s, j));
    }
  }

  lemma OverwriteOthers(g: Superblock, s: Sys, s': Sys, slot: nat, lo: nat, hi: nat)
    requires FilesOk(g, s) && FilesOk(g, s') && slot in s.open && slot in s'.open
    requires s'.open == s.open[slot := s'.open[slot]] && s'.store.table == s.store.table
    requires SameOutside(s.store.disk, s'.store.disk, lo, hi)
    requires At(g, s.store.table[slot].startBlock) <= lo && hi <= At(g, s.store.table[slot].startBlock + s.store.table[slot].blockCount)
    ensures OthersKept(g, s, s', s.store.table[slot].NameBytes())
  {
    forall j | 0 <= j < MAX_ENTRIES && j != slot
      ensures SlotKept(g, s, s', j)
    {
      SlotKeptByOverwrite(g, s, s', slot, lo, hi, j);
    }
    OtherSlotsKept(g, s, s', slot, s.store.table[slot].NameBytes());
  }

  lemma OverwriteRefines(g: Superblock, s: Sys, slot: nat, data: seq<byte>, offset: nat, rc: Code, s': Sys)
    requires FilesOk(g, s) && FilesOk(g, s') && slot in s.open && slot in s'.open && |data| > 0
    requires BlocksEnd(g, offset, |data|) <= s.open[slot].blockCount
    requires OverwriteStep(g, s.store, s'.store, s.open[slot], s'.open[slot], data, offset, rc)
    requires s'.open == s.open[slot := s'.open[slot]]
    ensures Refines(g, s, Write(slot, data, offset, rc), s')
  {
    hide Blocks, BlockOf, EntryOk, Apart, Written, WriteFailed, OthersKept;
    var lo, hi := OverwriteFrame(g, s.store, s'.store, s.open[slot], s'.open[slot], data, offset, rc);
    OverwriteOthers(g, s, s', slot, lo, hi);
    ViewOfSlot(g, s, slot);
    ViewOfSlot(g, s', slot);
    OverwrittenBytes(g, s.store, s'.store, s.open[slot], s'.open[slot], data, offset, rc);
  }

  /** What the overwritten extent holds. */
  lemma OverwrittenBytes(g: Superblock, s: Store, s': Store, h: Handle, h': Handle, data: seq<byte>, offset: nat, rc: Code)
    requires GeometryOk(g) && h.slot < |s.table| && s.table[h.slot].InUse() && EntryOk(g, s.table[h.slot])
    requires h.startLba == g.dataStart + s.table[h.slot].startBlock && h.byteLength <= Blocks(s.table[h.slot].blockCount, g.blockSize)
    requires |data| > 0 && BlocksEnd(g, offset, |data|) <= s.table[h.slot].blockCount
    requires OverwriteStep(g, s, s', h, h', data, offset, rc)
    requires |s.disk| == DiskSize(g)
    ensures var b, at := s.table[h.slot].startBlock, At(g, s.table[h.slot].startBlock);
            && at + h.byteLength <= |s.disk| && at + h'.byteLength <= |s'.disk|
            && if rc == OK then Written(ExtentBytes(g, s.disk, b, h.byteLength), data, offset, ExtentBytes(g, s'.disk, b, h'.byteLength))
               else WriteFailed(g, ExtentBytes(g, s.disk, b, h.byteLength), data, offset, rc, ExtentBytes(g, s'.disk, b, h'.byteLength))
  {
    hide At, Blocks, BlockOf, FirstBlock, BlocksEnd, Splice, WroteOnly, Written, WriteFailed;
    var e := s.table[h.slot];
    ExtentInDisk(g, e, h.byteLength);
    OverwriteRange(g, e, h.startLba, offset, |data|);
    if rc == OK {
      SpliceSlice(s.disk, At(g, e.startBlock), h.byteLength, offset, data, h'.byteLength);
    } else {
      DamageSlice(g, s.disk, s'.disk, e.startBlock, h.byteLength, data, offset, rc);
    }
  }

  lemma DamageSlice(g: Superblock, d: seq<byte>, d': seq<byte>, b: nat, n: nat, data: seq<byte>, offset: nat, rc: Code)
    requires g.blockSize > 0 && |data| > 0 && At(g, b) + n <= |d|
    requires SameOutside(d, d', At(g, b) + Blocks(FirstBlock(g, offset), g.blockSize), At(g, b) + Blocks(BlocksEnd(g, offset, |data|), g.blockSize))
    requires rc != IOERR_WRITE ==> d' == d
    ensures WriteFailed(g, ExtentBytes(g, d, b, n), data, offset, rc, ExtentBytes(g, d', b, n))
  {
    DamageInside(d, d', At(g, b), n, Blocks(FirstBlock(g, offset), g.blockSize), Blocks(BlocksEnd(g, offset, |data|), g.blockSize));
  }

  lemma DamageInside(d: seq<byte>, d': seq<byte>, at: nat, n: nat, lo: nat, hi: nat)
    requires SameOutside(d, d', at + lo, at + hi) && at + n <= |d|
    ensures SameOutside(d[at..at + n], d'[at..at + n], lo, hi)
  {
  }

  /** Relocation is invisible: every file, the moved one included, shows the same bytes. */
  lemma GrowKeepsViews(g: Superblock, s: Sys, slot: nat, needed: u64, b: u64, s': Sys)
    requires FilesOk(g, s) && FilesOk(g, s') && Accounted(s.store.table, Members(s.store.words), s.leaked)
    requires slot in s.open && slot in s'.open && needed > s.open[slot].blockCount
    requires Relocated(g, s.store, s'.store, s.open[slot], s'.open[slot], needed, b)
    requires s'.open == s.open[slot := s'.open[slot]]
    ensures AllKept(g, s, s')
  {
    forall j | 0 <= j < MAX_ENTRIES
      ensures SlotKept(g, s, s', j)
    {
      if j != slot {
        SlotKeptByFreeRunWrite(g, s, s', b, needed, j);
      } else {
        MovedSlotKept(g, s, slot, needed, b, s');
      }
    }
    AllSlotsKept(g, s, s');
  }

  lemma MovedSlotKept(g: Superblock, s: Sys, slot: nat, needed: u64, b: u64, s': Sys)
    requires FilesOk(g, s) && FilesOk(g, s')
    requires slot in s.open && slot in s'.open
    requires Relocated(g, s.store, s'.store, s.open[slot], s'.open[slot], needed, b)
    ensures SlotKept(g, s, s', slot)
  {
    var e, n, len := s.store.table[slot], Blocks(s.open[slot].blockCount, g.blockSize), s.open[slot].byteLength;
    ContentInDisk(g, s, slot);
    ContentInDisk(g, s', slot);
    ExtentPrefix(g, s'.store.disk, b, n, len);
    ExtentPrefix(g, s.store.disk, e.startBlock, n, len);
  }

  lemma ExtentPrefix(g: Superblock, disk: seq<byte>, b: nat, n: nat, len: nat)
    requires At(g, b) + n <= |disk| && len <= n
    ensures ExtentBytes(g, disk, b, len) == ExtentBytes(g, disk, b, n)[..len]
  {
  }

  lemma GrowFailureKeepsViews(g: Superblock, s: Sys, needed: nat, b: nat, s': Sys)
    requires FilesOk(g, s) && FilesOk(g, s') && Accounted(s.store.table, Members(s.store.words), s.leaked)
    requires GrowthUndone(g, s.store, s'.store, needed, b) && needed >= 1 && s'.open == s.open
    ensures AllKept(g, s, s')
  {
    forall j | 0 <= j < MAX_ENTRIES
      ensures SlotKept(g, s, s', j)
    {
      SlotKeptByFreeRunWrite(g, s, s', b, needed, j);
    }
    AllSlotsKept(g, s, s');
  }

  lemma WriteRefines(g: Superblock, s: Sys, slot: nat, data: seq<byte>, offset: nat, rc: Code, s': Sys)
    requires Inv(g, s) && Inv(g, s') && SysStep(g, s, Write(slot, data, offset, rc), s')
    ensures Refines(g, s, Write(slot, data, offset, rc), s')
  {
    var h, h', needed := s.open[slot], s'.open[slot], BlocksEnd(g, offset, |data|);
    if needed <= h.blockCount {
      OverwriteRefines(g, s, slot, data, offset, rc, s');
    } else if rc != OK && GrowStep(g, s.store, s'.store, h, h', needed, rc) {
      FailedGrowthKeepsInv(g, s, slot, needed, rc, s');
      FailedGrowthRefines(g, s, slot, data, offset, rc, s');
    } else {
      var s1, b := GrownSystem(g, s, slot, data, offset, rc, s');
      GrowKeepsInv(g, s, slot, needed, b, s1);
      GrowKeepsViews(g, s, slot, needed, b, s1);
      OverwriteRefines(g, s1, slot, data, offset, rc, s');
      RefinesAfterGrowth(g, s, s1, slot, data, offset, rc, s');
    }
  }

  lemma FailedGrowthRefines(g: Superblock, s: Sys, slot: nat, data: seq<byte>, offset: nat, rc: Code, s': Sys)
    requires FilesOk(g, s) && FilesOk(g, s') && Accounted(s.store.table, Members(s.store.words), s.leaked)
    requires slot in s.open && slot in s'.open && s'.open == s.open && |data| > 0 && rc != OK
    requires GrowStep(g, s.store, s'.store, s.open[slot], s'.open[slot], BlocksEnd(g, offset, |data|), rc)
    ensures Refines(g, s, Write(slot, data, offset, rc), s')
  {
    FailedGrowthKeepsViews(g, s, slot, BlocksEnd(g, offset, |data|), rc, s');
    ViewOfSlot(g, s, slot);
    assert View(g, s', s.store.table[slot].NameBytes()) == View(g, s, s.store.table[slot].NameBytes());
  }

  lemma FailedGrowthKeepsViews(g: Superblock, s: Sys, slot: nat, needed: nat, rc: Code, s': Sys)
    requires FilesOk(g, s) && FilesOk(g, s') && Accounted(s.store.table, Members(s.store.words), s.leaked)
    requires slot in s.open && slot in s'.open && s'.open == s.open && needed >= 1 && rc != OK
    requires GrowStep(g, s.store, s'.store, s.open[slot], s'.open[slot], needed, rc)
    ensures AllKept(g, s, s')
  {
    if s'.store == s.store {
      AllAlike(g, s, s');
    } else {
      var b: nat :| GrowthUndone(g, s.store, s'.store, needed, b);
      GrowFailureKeepsViews(g, s, needed, b, s');
    }
  }

  lemma RefinesAfterGrowth(g: Superblock, s: Sys, s1: Sys, slot: nat, data: seq<byte>, offset: nat, rc: Code, s': Sys)
    requires AllKept(g, s, s1)
    requires Refines(g, s1, Write(slot, data, offset, rc), s')
    requires slot < |s.store.table| && slot < |s1.store.table| && s1.store.table[slot].NameBytes() == s.store.table[slot].NameBytes()
    ensures Refines(g, s, Write(slot, data, offset, rc), s')
  {
    var name := s.store.table[slot].NameBytes();
    forall n | n != name
      ensures View(g, s', n) == View(g, s, n)
    {
      assert View(g, s', n) == View(g, s1, n);
    }
  }

  // ---- Every run ----

  /** Every step refines the corresponding operation on the map from names to bytes. */
  lemma StepRefines(g: Superblock, s: Sys, ev: Event, s': Sys)
    requires Inv(g, s) && SysStep(g, s, ev, s')
    ensures Inv(g, s') && Refines(g, s, ev, s')
  {
    hide GeometryOk, TableOk, HandlesOk, Accounted, StoreOk, CleanOk, Visible, WroteOnly;
    StepKeepsInv(g, s, ev, s');
    match ev
    case Open(name, create, r) =>
      OpenKeepsInv(g, s, name, create, r, s');
      OpenRefines(g, s, name, create, r, s');
    case Close(slot) => CloseRefines(g, s, slot, s');
    case Read(slot, amount, offset, buf, rc) => ReadRefines(g, s, slot, amount, offset, buf, rc);
    case Write(slot, data, offset, rc) => WriteRefines(g, s, slot, data, offset, rc, s');
    case Truncate(slot, size) => TruncateRefines(g, s, slot, size, s');
    case Delete(name) => DeleteRefines(g, s, name, s');
    case Sync(slot, rc) => SyncRefines(g, s, slot, rc, s');
  }

  lemma CloseRefines(g: Superblock, s: Sys, slot: nat, s': Sys)
    requires FilesOk(g, s) && FilesOk(g, s') && SysStep(g, s, Close(slot), s')
    ensures Refines(g, s, Close(slot), s')
  {
    hide Blocks, EntryOk, Apart, Visible, FitsDisk;
    AllAlike(g, s, s');
  }

  lemma SyncRefines(g: Superblock, s: Sys, slot: nat, rc: Code, s': Sys)
    requires FilesOk(g, s) && FilesOk(g, s') && SysStep(g, s, Sync(slot, rc), s')
    ensures Refines(g, s, Sync(slot, rc), s')
  {
    hide Blocks, EntryOk, Apart, Visible, FitsDisk;
    DiskRegions(g);
    AllAlike(g, s, s');
  }

  /** A run: each state follows from the previous one by its event. */
  ghost predicate Run(g: Superblock, states: seq<Sys>, events: seq<Event>) {
    && |states| == |events| + 1
    && forall k :: 0 <= k < |events| ==> SysStep(g, states[k], events[k], states[k + 1])
  }

  /** A step between consistent states that does what the map operation does. */
  ghost predicate RefinedStep(g: Superblock, s: Sys, ev: Event, s': Sys) {
    Inv(g, s) && Inv(g, s') && Refines(g, s, ev, s')
  }

  /** Any run from a consistent state stays consistent and refines the map, event by event. */
  lemma {:induction false} RunRefines(g: Superblock, states: seq<Sys>, events: seq<Event>, k: nat)
    requires Run(g, states, events) && Inv(g, states[0]) && k <= |events|
    ensures Inv(g, states[k])
    ensures k < |events| ==> RefinedStep(g, states[k], events[k], states[k + 1])
  {
    hide Inv, Refines, SysStep;
    if k > 0 {
      RunRefines(g, states, events, k - 1);
      assert RefinedStep(g, states[k - 1], events[k - 1], states[k - 1 + 1]);
    }
    if k < |events| {
      StepRefines(g, states[k], events[k], states[k + 1]);
    }
  }
}
