/** The VFS: files of SQLite on the block allocator, the file table and the device. Every method is
    proved to take a step of VfsModel. */
module Vfs {
  import opened Bits
  import opened Bytes
  import opened Runs
  import opened RamDisks
  import opened BlockAlloc
  import opened FileTables
  import opened VfsModel
  import opened VfsInvariant
  import opened VfsIo

  const OPEN_CREATE: nat := 4

  /** Per-open-file state: the table slot with the cached extent and length. */
  class HeavenFile {
    const fileTableIndex: nat
    var startLba: nat
    var blockCount: nat
    var byteLength: nat
    const blockSize: nat

    constructor (fileTableIndex: nat, startLba: nat, blockCount: nat, byteLength: nat, blockSize: nat)
      ensures Value() == Handle(fileTableIndex, startLba, blockCount, byteLength) && this.blockSize == blockSize
    {
      this.fileTableIndex, this.startLba, this.blockCount := fileTableIndex, startLba, blockCount;
      this.byteLength, this.blockSize := byteLength, blockSize;
    }

    function Value(): Handle
      reads this
    {
      Handle(fileTableIndex, startLba, blockCount, byteLength)
    }
  }

  class HeavenVfs {
    const allocator: BlockAllocator
    const fileTable: FileTable
    const nvme: RamDisk
    /** Whether the global device has been initialised. */
    const nvmeReady: bool

    constructor (allocator: BlockAllocator, fileTable: FileTable, nvme: RamDisk, nvmeReady: bool)
      ensures this.allocator == allocator && this.fileTable == fileTable && this.nvme == nvme && this.nvmeReady == nvmeReady
    {
      this.allocator, this.fileTable, this.nvme, this.nvmeReady := allocator, fileTable, nvme, nvmeReady;
    }

    /** The parts fit together as the superblock `g` says. */
    ghost predicate Valid(g: Superblock)
      reads allocator, nvme
    {
      && GeometryOk(g)
      && allocator.Valid() && fileTable.Valid() && nvme.Valid()
      && allocator.dataBlockCount == g.dataBlocks && allocator.dataStartLba == g.dataStart
      && allocator.bitmapStartLba == g.bitmapStart && allocator.bitmapOnDiskBlocks == g.bitmapBlocks
      && fileTable.fileTableLba == g.tableStart
      && allocator.blockSize == fileTable.blockSize == nvme.blockSize == g.blockSize
      && |nvme.data| == DiskSize(g)
    }

    ghost function Contents(): Store
      reads allocator, fileTable, fileTable.entries, nvme
    {
      Store(nvme.initial, nvme.data, nvme.trace, allocator.bitmap, fileTable.entries[..], allocator.dirty, fileTable.dirty)
    }

    ghost predicate FileOk(g: Superblock, file: HeavenFile)
      reads allocator, fileTable, fileTable.entries, nvme, file
    {
      file.blockSize == g.blockSize && HandleOk(g, Contents(), file.Value())
    }

    // ---- xOpen ----

    /** Open a file, creating it when `flags` allow and it does not exist. */
    method Open(ghost g: Superblock, name: seq<byte>, flags: nat) returns (file: HeavenFile?, code: Code)
      requires Valid(g)
      modifies allocator, fileTable, fileTable.entries
      ensures Valid(g)
      ensures file != null ==> fresh(file) && file.blockSize == g.blockSize
      ensures OpenStep(g, old(Contents()), Contents(), name, And(flags, OPEN_CREATE) != 0,
                       if file == null then OpenFailed(code) else Opened(file.Value()))
    {
      hide GeometryOk, LowestRun, NoRun, BitmapBecame, Created, Has, Visible, FitsDisk;
      file, code := null, OK;
      var found := fileTable.Lookup(name);
      FindIs(fileTable.entries[..], name, found);
      if found.FoundAt? {
        var entry := fileTable.entries[found.index];
        file := new HeavenFile(found.index, allocator.dataStartLba + entry.startBlock, entry.blockCount, entry.byteLength, allocator.blockSize);
        return;
      }
      if And(flags, OPEN_CREATE) == 0 {
        return null, CANTOPEN;
      }
      file, code := CreateFile(g, name);
    }

    method CreateFile(ghost g: Superblock, name: seq<byte>) returns (file: HeavenFile?, code: Code)
      requires Valid(g) && Find(fileTable.entries[..], name).NotFound?
      modifies allocator, fileTable, fileTable.entries
      ensures Valid(g)
      ensures file != null ==> fresh(file) && file.blockSize == g.blockSize
      ensures OpenStep(g, old(Contents()), Contents(), name, true,
                       if file == null then OpenFailed(code) else Opened(file.Value()))
    {
      hide GeometryOk, LowestRun, NoRun, Has, Members, Range, Visible, FitsDisk, Find, OpenStep, Created;
      file, code := null, FULL;
      ghost var s := Contents();
      var run := allocator.Alloc(INITIAL_ALLOC_BLOCKS);
      if run.Refused? {
        assert run.error == OutOfSpace || run.error == InvalidSize;
        NoRoomToCreate(g, s, Contents(), name);
        return;
      }
      StartFits(g, s, INITIAL_ALLOC_BLOCKS, run.start);
      ghost var s1 := Contents();
      assert s1 == s.(words := allocator.bitmap, bitmapDirty := true);
      var idx := fileTable.Create(name, run.start, INITIAL_ALLOC_BLOCKS);
      assert Contents() == s1.(table := fileTable.entries[..], tableDirty := fileTable.dirty);
      if idx.NotFound? {
        CreateFailed(g, s, Contents(), name, run.start);
        return;
      }
      file := new HeavenFile(idx.index, allocator.dataStartLba + run.start, INITIAL_ALLOC_BLOCKS, 0, allocator.blockSize);
      assert forall j :: 0 <= j < idx.index ==> s.table[j] == fileTable.entries[j];
      CreatedIn(g, s, Contents(), name, run.start, idx.index);
    }

    // ---- xClose ----

    /** Record the handle's length in the table. */
    method Close(ghost g: Superblock, file: HeavenFile) returns (code: Code)
      requires Valid(g) && FileOk(g, file)
      modifies fileTable, fileTable.entries
      ensures Valid(g) && code == OK
      ensures CloseStep(old(Contents()), Contents(), file.Value())
    {
      LengthFits(g, Contents(), file.Value());
      RecordLength(file.fileTableIndex, file.byteLength);
      return OK;
    }

    method RecordLength(index: nat, byteLength: u64)
      requires fileTable.Valid() && index < MAX_ENTRIES && fileTable.entries[..][index].InUse()
      modifies fileTable`dirty, fileTable.entries
      ensures fileTable.dirty
      ensures fileTable.entries[..] == old(fileTable.entries[..])[index := old(fileTable.entries[..])[index].(byteLength := byteLength)]
    {
      var ok := fileTable.GetMut(index);
      if ok {
        fileTable.entries[index] := fileTable.entries[index].(byteLength := byteLength);
      }
    }

    /** The blocks that a transfer touches, and where in the first of them it starts. */
    static method Span(offset: nat, amount: nat, blockSize: nat) returns (startBlock: nat, blockCount: nat, inFirst: nat)
      requires blockSize > 0 && amount > 0
      ensures startBlock == BlockOf(offset, blockSize) && blockCount > 0
      ensures startBlock + blockCount == BlockOf(offset + amount - 1, blockSize) + 1
      ensures inFirst < blockSize && offset == Blocks(startBlock, blockSize) + inFirst
    {
      startBlock := offset / blockSize;
      var endBlock := (offset + amount - 1) / blockSize;
      inFirst := offset % blockSize;
      BlockOfIs(offset, blockSize);
      BlockOfIs(offset + amount - 1, blockSize);
      BlockOfMono(offset, offset + amount - 1, blockSize);
      BlocksIs(startBlock, blockSize);
      blockCount := endBlock - startBlock + 1;
    }

    // ---- xRead ----

    /** Read full blocks and copy the requested bytes; zeros past the end of the file. */
    method Read(ghost g: Superblock, file: HeavenFile, buf: array<byte>, offset: nat) returns (code: Code)
      requires Valid(g) && FileOk(g, file) && buf.Length > 0
      modifies buf, nvme.env
      ensures Valid(g)
      ensures ReadExplained(g, file.Value(), buf.Length, offset, code, nvmeReady, old(nvme.env.refused), nvme.env.refused)
      ensures ReadStep(g, Contents(), file.Value(), buf.Length, offset, buf[..], code)
    {
      hide GeometryOk, Has, Visible, FitsDisk, Blocks, BlockOf, Range, UpToNul, Members, ReadStep, Caused, ReadExplained;
      ghost var s, h, before := Contents(), file.Value(), nvme.env.refused;
      HandleInDisk(g, s, h);
      var amount, bs := buf.Length, file.blockSize;
      if offset >= file.byteLength {
        ZeroFill(buf, 0);
        ReadPastEnd(g, s, h, amount, offset, buf[..]);
        PastEndExplained(g, h, amount, offset, nvmeReady, before);
        return IOERR_SHORT_READ;
      }
      var available := file.byteLength - offset;
      var toRead := Least(amount, available);
      var startBlock, blockCount, inFirst := Span(offset, toRead, bs);
      TransferFits(g, h, offset, toRead);
      SpanPosition(g, h.startLba, offset, toRead, inFirst);
      if startBlock + blockCount > file.blockCount {
        assert false;
      }
      if !nvmeReady {
        ReadFailed(g, s, h, amount, offset, buf[..], IOERR);
        NotReadyExplained(g, h, amount, offset, before);
        return IOERR;
      }
      TransferInDisk(g, s, h, startBlock, blockCount);
      code := FetchInto(file.startLba + startBlock, blockCount, inFirst, toRead, buf);
      FetchExplained(g, h, amount, offset, code, toRead < amount, before, nvme.env.refused);
      if code != OK {
        ReadFailed(g, s, h, amount, offset, buf[..], code);
        return;
      }
      ArrayParts(buf, toRead);
      if toRead < amount {
        ZeroFill(buf, toRead);
        code := IOERR_SHORT_READ;
        ArrayParts(buf, toRead);
      }
      ReadServed(g, s, h, amount, offset, buf[..], toRead, code);
    }

    lemma ArrayParts(buf: array<byte>, n: nat)
      requires n <= buf.Length
      ensures buf[..][..n] == buf[..n] && buf[..][n..] == buf[n..]
    {
      hide *;
    }

    method ZeroFill(buf: array<byte>, from: nat)
      requires from <= buf.Length
      modifies buf
      ensures buf[..from] == old(buf[..from]) && buf[from..] == Zeros(buf.Length - from)
    {
      forall i | from <= i < buf.Length {
        buf[i] := 0;
      }
    }

    /** Read blocks and copy `toRead` bytes that start `inFirst` bytes into them. */
    method FetchInto(startLba: nat, blockCount: nat, inFirst: nat, toRead: nat, buf: array<byte>) returns (code: Code)
      requires nvme.Valid() && blockCount > 0 && toRead <= buf.Length
      requires inFirst + toRead <= Blocks(blockCount, nvme.blockSize)
      requires Blocks(startLba, nvme.blockSize) + Blocks(blockCount, nvme.blockSize) <= |nvme.data|
      modifies buf, nvme.env
      ensures Caused(code, true, blockCount, old(nvme.env.refused), nvme.env.refused)
      ensures code == OK <==> nvme.env.refused == old(nvme.env.refused)
      ensures code == OK || code == IOERR_NOMEM || code == IOERR_READ
      ensures code == OK ==>
                && Blocks(startLba, nvme.blockSize) + inFirst + toRead <= |nvme.data|
                && buf[..toRead] == nvme.data[Blocks(startLba, nvme.blockSize) + inFirst..Blocks(startLba, nvme.blockSize) + inFirst + toRead]
    {
      hide Blocks;
      BlocksIs(blockCount, nvme.blockSize);
      var dma := nvme.env.AllocDma(blockCount * nvme.blockSize);
      if dma == null {
        return IOERR_NOMEM;
      }
      var ok := ChunkedRead(nvme, startLba, blockCount, dma);
      if !ok {
        return IOERR_READ;
      }
      forall i | 0 <= i < toRead {
        buf[i] := dma[inFirst + i];
      }
      CopiedSlice(nvme.data, dma[..], buf[..toRead], Blocks(startLba, nvme.blockSize), inFirst, toRead);
      return OK;
    }

    // ---- xWrite ----

    /** Write `data` at `offset`, first moving the file to more blocks when its extent is too short. */
    method Write(ghost g: Superblock, file: HeavenFile, data: seq<byte>, offset: nat) returns (code: Code)
      requires Valid(g) && FileOk(g, file) && |data| > 0
      modifies allocator, fileTable, fileTable.entries, nvme, nvme.env, file
      ensures Valid(g)
      ensures WriteExplained(g, old(Contents()), old(file.Value()), data, offset, code, nvmeReady, old(nvme.env.refused), nvme.env.refused)
      ensures WriteStep(g, old(Contents()), Contents(), old(file.Value()), file.Value(), data, offset, code)
    {
      hide HandleOk, Visible, FitsDisk, Has, Blocks, Range, Members, NoRun, Caused, GrowStep, OverwriteStep, GeometryOk, BlockOf,
           WriteStep, WriteExplained, GrowExplained;
      ghost var s, h, before := Contents(), file.Value(), nvme.env.refused;
      SlotInTable(g, s, h);
      var startBlock, blockCount, inFirst := Span(offset, |data|, file.blockSize);
      if startBlock + blockCount > file.blockCount {
        code := Grow(g, file, startBlock + blockCount);
        GrowingWriteSoFar(g, s, Contents(), h, file.Value(), data, offset, code, nvmeReady, before, nvme.env.refused);
        if code != OK {
          return;
        }
      }
      ghost var s1, h1 := Contents(), file.Value();
      TransferInDisk(g, s1, h1, startBlock, blockCount);
      code := Overwrite(g, file, data, offset, startBlock, blockCount, inFirst);
      WriteOutcome(g, s, s1, Contents(), h, h1, file.Value(), data, offset, code, nvmeReady, before, nvme.env.refused);
    }

    /** Move the file to the lowest free run of `needed` blocks: allocate, copy, flush, record, free the old blocks. */
    method Grow(ghost g: Superblock, file: HeavenFile, needed: nat) returns (code: Code)
      requires Valid(g) && FileOk(g, file) && needed > file.blockCount
      modifies allocator, fileTable, fileTable.entries, nvme, nvme.env, file
      ensures GrowExplained(g, old(Contents()), needed, code, nvmeReady, old(nvme.env.refused), nvme.env.refused)
      ensures code == OK ==> file.blockSize == g.blockSize && FileOk(g, file)
      ensures Valid(g) && file.fileTableIndex < |old(Contents()).table|
      ensures GrowStep(g, old(Contents()), Contents(), old(file.Value()), file.Value(), needed, code)
    {
      hide GeometryOk, Visible, FitsDisk, Has, Blocks, WroteOnly, DiskStep, LowestRun, NoRun, Members, Range, At, GrowStep;
      ghost var s, h := Contents(), file.Value();
      SlotInTable(g, s, h);
      if !nvmeReady {
        GrowRefused(g, s, h, needed, IOERR);
        return IOERR;
      }
      var run := allocator.Alloc(needed);
      if run.Refused? {
        assert run.error == OutOfSpace;
        assert Contents() == s;
        GrowRefused(g, s, h, needed, FULL);
        return FULL;
      }
      StartFits(g, s, needed, run.start);
      LowestRunIsARun(Members(s.words), g.dataBlocks, needed, 1, run.start);
      code := MoveTo(g, s, file, run.start, needed);
    }

    /** Use the newly allocated run, or give it back. */
    method MoveTo(ghost g: Superblock, ghost s: Store, file: HeavenFile, start: u64, needed: u64) returns (code: Code)
      requires Valid(g) && file.blockSize == g.blockSize && HandleOk(g, s, file.Value()) && needed > file.blockCount
      requires LowestRun(Members(s.words), g.dataBlocks, needed, 1, start)
      requires Contents() == s.(words := allocator.bitmap, bitmapDirty := true) && |allocator.bitmap| == |s.words|
      requires allocator.Used() == Members(s.words) + Range(start, needed)
      modifies allocator, fileTable, fileTable.entries, nvme, nvme.env, file
      ensures Valid(g) && file.fileTableIndex < |s.table|
      ensures Caused(code, true, 0, old(nvme.env.refused), nvme.env.refused) && code != FULL
      ensures code == OK <==> nvme.env.refused == old(nvme.env.refused)
      ensures code == OK ==> FileOk(g, file)
      ensures GrowStep(g, s, Contents(), old(file.Value()), file.Value(), needed, code)
    {
      hide GeometryOk, Visible, FitsDisk, Has, Blocks, WroteOnly, DiskStep, LowestRun, NoRun, Members, Range, At, GrowStep, HandleOk,
           Caused, BlocksMoved;
      ghost var h := file.Value();
      SlotInTable(g, s, h);
      code := MoveBlocks(g, s, file, start, needed);
      ghost var s1 := Contents();
      if code != OK {
        allocator.Free(start, needed);
        GrowUndone(g, s, s1, Contents(), h, needed, start, code);
        return;
      }
      StillOk(g, s, s1, h, Range(start, needed));
      HandleStart(g, s, h);
      Relocate(g, file, start, needed);
      GrowRelocated(g, s, s1, Contents(), h, file.Value(), needed, start);
      HandleMovedOk(g, s, Contents(), h, file.Value(), needed, start);
    }

    /** Point handle and entry at the new blocks, then free the old ones. */
    method Relocate(ghost g: Superblock, file: HeavenFile, start: u64, needed: u64)
      requires Valid(g) && FileOk(g, file)
      modifies allocator, fileTable, fileTable.entries, file
      ensures Valid(g) && allocator.dirty && |allocator.bitmap| == |old(allocator.bitmap)|
      ensures file.Value() == old(file.Value()).(startLba := g.dataStart + start, blockCount := needed)
      ensures var before := old(fileTable.entries[..])[file.fileTableIndex];
              && allocator.Used() == old(allocator.Used()) - Range(before.startBlock, old(file.blockCount))
              && fileTable.entries[..] == old(fileTable.entries[..])[file.fileTableIndex := before.(startBlock := start, blockCount := needed)]
      ensures fileTable.dirty
    {
      hide GeometryOk, Visible, FitsDisk, Has, Blocks;
      var oldStartBlock, oldBlockCount := file.startLba - allocator.dataStartLba, file.blockCount;
      file.startLba, file.blockCount := allocator.dataStartLba + start, needed;
      var ok := fileTable.GetMut(file.fileTableIndex);
      if ok {
        var entry := fileTable.entries[file.fileTableIndex];
        fileTable.entries[file.fileTableIndex] := entry.(startBlock := start, blockCount := needed);
      }
      allocator.Free(oldStartBlock, oldBlockCount);
    }

    /** Copy the file's blocks to data block `to` on and flush them. */
    method MoveBlocks(ghost g: Superblock, ghost s: Store, file: HeavenFile, to: nat, ghost needed: nat) returns (code: Code)
      requires Valid(g) && file.blockSize == g.blockSize && HandleOk(g, s, file.Value()) && needed > file.blockCount
      requires s.initial == nvme.initial && s.disk == nvme.data && s.trace == nvme.trace
      requires LowestRun(Members(s.words), g.dataBlocks, needed, 1, to)
      modifies nvme, nvme.env
      ensures Caused(code, true, 0, old(nvme.env.refused), nvme.env.refused)
      ensures code == OK <==> nvme.env.refused == old(nvme.env.refused)
      ensures Valid(g) && DiskStep(s, s.(disk := nvme.data, trace := nvme.trace), At(g, to), At(g, to + needed))
      ensures code == OK || code == IOERR_READ || code == IOERR_WRITE || code == IOERR_NOMEM || code == IOERR_FSYNC
      ensures code == OK ==> BlocksMoved(g, s.disk, nvme.data, file.startLba, to, file.blockCount)
      ensures code == OK ==> nvme.trace != [] && nvme.trace[|nvme.trace| - 1] == Flushed
    {
      hide GeometryOk, Visible, FitsDisk, Has, Blocks, WroteOnly, Members, Range, LowestRun, HandleOk;
      ghost var size, start := g.blockSize, g.dataStart + to;
      ExtentApart(g, s, file.Value(), to, needed);
      CopyInDisk(g, s, file.Value(), to, needed);
      code := CopyBlocks(nvme, file.startLba, allocator.dataStartLba + to, file.blockCount);
      BlocksMono(start + file.blockCount, start + needed, size);
      WroteOnlyWidens(s.trace, nvme.trace, Blocks(start, size), Blocks(start + file.blockCount, size), Blocks(start, size), Blocks(start + needed, size));
      ghost var copied := nvme.trace;
      if code == OK {
        CopyMoved(g, s, nvme.data, file.Value(), to, needed);
        var ok := nvme.Flush();
        if !ok {
          code := IOERR_FSYNC;
        }
      }
      FlushKeepsRange(s.trace, copied, nvme.trace, At(g, to), At(g, to + needed));
      HistoryOutside(s, s.(disk := nvme.data, trace := nvme.trace), At(g, to), At(g, to + needed));
    }

    /** Write inside the extent: whole blocks directly, otherwise by reading, patching and writing back. */
    method Overwrite(ghost g: Superblock, file: HeavenFile, data: seq<byte>, offset: nat,
                     startBlock: nat, blockCount: nat, inFirst: nat) returns (code: Code)
      requires Valid(g) && file.blockSize == g.blockSize && |data| > 0
      requires startBlock == FirstBlock(g, offset) && startBlock + blockCount == BlocksEnd(g, offset, |data|) && blockCount > 0
      requires inFirst < g.blockSize && offset == Blocks(startBlock, g.blockSize) + inFirst
      requires Blocks(file.startLba + startBlock, g.blockSize) + Blocks(blockCount, g.blockSize) <= |nvme.data|
      modifies nvme, nvme.env, file
      ensures Caused(code, nvmeReady, blockCount, old(nvme.env.refused), nvme.env.refused)
      ensures code == OK <==> nvmeReady && nvme.env.refused == old(nvme.env.refused)
      ensures Valid(g)
      ensures OverwriteStep(g, old(Contents()), Contents(), old(file.Value()), file.Value(), data, offset, code)
    {
      hide GeometryOk, Visible, FitsDisk, Has, Blocks, WroteOnly, BlockOf, Unflushed, Splice, Members, Range, SameOutside,
           BufferPatched, BlocksWritten, OverwriteStep, DiskStep, AllUnflushed, AllLanded;
      ghost var s, h := Contents(), file.Value();
      var bs, lba := file.blockSize, file.startLba + startBlock;
      ghost var lo, hi := Blocks(lba, bs), Blocks(lba + blockCount, bs);
      NothingWritten(nvme.trace, lo, hi);
      HistoryOutside(s, s, lo, hi);
      OverwriteFailed(g, s, s, h, data, offset, startBlock, blockCount);
      if !nvmeReady {
        return IOERR;
      }
      var dma := nvme.env.AllocDma(blockCount * bs);
      if dma == null {
        return IOERR_NOMEM;
      }
      BlocksIs(blockCount, bs);
      SpanPosition(g, file.startLba, offset, |data|, inFirst);
      code := FillBuffer(lba, blockCount, dma, inFirst, data);
      if code != OK {
        return;
      }
      var ok := ChunkedWrite(nvme, lba, blockCount, dma);
      HistoryOutside(s, Contents(), lo, hi);
      if !ok {
        OverwriteFailed(g, s, Contents(), h, data, offset, startBlock, blockCount);
        return IOERR_WRITE;
      }
      OverwriteDone(g, s, Contents(), h, data, offset, startBlock, blockCount, inFirst, dma[..]);
      if offset + |data| > file.byteLength {
        file.byteLength := offset + |data|;
      }
      return OK;
    }

    /** What is to be written: `data` alone when it fills whole blocks, else the blocks with `data` laid over. */
    method FillBuffer(startLba: nat, blockCount: nat, dma: array<byte>, inFirst: nat, data: seq<byte>) returns (code: Code)
      requires nvme.Valid() && blockCount > 0 && dma.Length == Blocks(blockCount, nvme.blockSize)
      requires inFirst + |data| <= dma.Length < inFirst + |data| + nvme.blockSize && inFirst < nvme.blockSize
      requires Blocks(startLba, nvme.blockSize) + dma.Length <= |nvme.data|
      modifies dma, nvme.env
      ensures Caused(code, true, blockCount, old(nvme.env.refused), nvme.env.refused)
      ensures code == OK <==> nvme.env.refused == old(nvme.env.refused)
      ensures code == OK || code == IOERR_READ
      ensures code == OK ==> BufferPatched(nvme.data, startLba, nvme.blockSize, dma[..], inFirst, data)
    {
      hide Blocks;
      if inFirst == 0 && |data| % nvme.blockSize == 0 {
        WholeBlocks(|data|, blockCount, nvme.blockSize);
        forall i | 0 <= i < |data| {
          dma[i] := data[i];
        }
        assert dma[..] == data;
      } else {
        var ok := ChunkedRead(nvme, startLba, blockCount, dma);
        if !ok {
          return IOERR_READ;
        }
        ghost var fetched := dma[..];
        forall i | 0 <= i < |data| {
          dma[inFirst + i] := data[i];
        }
        SplicedAt(fetched, dma[..], inFirst, data);
      }
      return OK;
    }

    // ---- xSync ----

    /** Record the length, write bitmap and table if dirty, flush the device. */
    method Sync(ghost g: Superblock, file: HeavenFile) returns (code: Code)
      requires Valid(g) && FileOk(g, file)
      modifies allocator, fileTable, fileTable.entries, nvme, nvme.env
      ensures Valid(g)
      ensures code == OK <==> nvmeReady && nvme.env.refused == old(nvme.env.refused)
      ensures old(nvme.env.refused).UpTo(nvme.env.refused)
      ensures SyncStep(g, old(Contents()), Contents(), file.Value(), code)
    {
      hide Visible, FitsDisk, Has, Blocks, WroteOnly, LowestRun, WordsOnDisk, TableOnDisk;
      ghost var s := Contents();
      LengthFits(g, s, file.Value());
      code := IOERR_FSYNC;
      if !nvmeReady {
        NothingWritten(nvme.trace, BitmapAt(g), TableEnd(g));
        HistoryOutside(s, s, BitmapAt(g), TableEnd(g));
        return;
      }
      RecordLength(file.fileTableIndex, file.byteLength);
      var ok := FlushBitmap(g);
      ghost var s1 := Contents();
      StoreRegions(g);
      WroteOnlyWidens(s.trace, s1.trace, BitmapAt(g), TableAt(g), BitmapAt(g), TableEnd(g));
      HistoryOutside(s, s1, BitmapAt(g), TableEnd(g));
      if !ok {
        return;
      }
      ok := FlushTable(g);
      ghost var s2 := Contents();
      HistoryOutside(s1, s2, TableAt(g), TableEnd(g));
      BitmapStays(g, s1, s2);
      WroteOnlyWidens(s1.trace, s2.trace, TableAt(g), TableEnd(g), BitmapAt(g), TableEnd(g));
      WroteOnlyTransitive(s.trace, s1.trace, s2.trace, BitmapAt(g), TableEnd(g));
      HistoryOutside(s, s2, BitmapAt(g), TableEnd(g));
      if !ok {
        return;
      }
      ok := nvme.Flush();
      FlushKeepsRange(s.trace, s2.trace, nvme.trace, BitmapAt(g), TableEnd(g));
      HistoryOutside(s, Contents(), BitmapAt(g), TableEnd(g));
      if ok {
        code := OK;
      }
    }

    /** Write the bitmap to its region if it is dirty. */
    method FlushBitmap(ghost g: Superblock) returns (ok: bool)
      requires Valid(g)
      modifies allocator, nvme, nvme.env
      ensures Valid(g)
      ensures ok <==> nvme.env.refused == old(nvme.env.refused)
      ensures old(nvme.env.refused).UpTo(nvme.env.refused)
      ensures Contents() == old(Contents()).(disk := nvme.data, trace := nvme.trace, bitmapDirty := !ok) && DeviceOk(Contents())
      ensures WroteOnly(old(nvme.trace), nvme.trace, BitmapAt(g), TableAt(g))
      ensures ok && old(allocator.dirty) ==> WordsOnDisk(nvme.data, BitmapAt(g), allocator.bitmap)
      ensures !old(allocator.dirty) ==> ok && nvme.data == old(nvme.data)
    {
      hide Visible, FitsDisk, Has, Blocks, WroteOnly, WordsOnDisk;
      BlocksIs(g.bitmapStart, g.blockSize);
      BlocksIs(g.bitmapStart + g.bitmapBlocks, g.blockSize);
      BlocksMono(g.bitmapStart + g.bitmapBlocks, g.tableStart, g.blockSize);
      MetadataInDisk(g);
      ok := allocator.Flush(nvme);
      WroteOnlyWidens(old(nvme.trace), nvme.trace, g.bitmapStart * g.blockSize, (g.bitmapStart + g.bitmapBlocks) * g.blockSize,
                      BitmapAt(g), TableAt(g));
    }

    /** Write the table to its block. */
    method FlushTable(ghost g: Superblock) returns (ok: bool)
      requires Valid(g) && fileTable.dirty
      modifies fileTable`dirty, nvme, nvme.env
      ensures Valid(g)
      ensures ok <==> nvme.env.refused == old(nvme.env.refused)
      ensures old(nvme.env.refused).UpTo(nvme.env.refused)
      ensures Contents() == old(Contents()).(disk := nvme.data, trace := nvme.trace, tableDirty := !ok) && DeviceOk(Contents())
      ensures WroteOnly(old(nvme.trace), nvme.trace, TableAt(g), TableEnd(g))
      ensures ok ==> TableOnDisk(nvme.data, TableAt(g), fileTable.entries[..])
    {
      hide Visible, FitsDisk, Has, Blocks, WroteOnly, TableOnDisk;
      BlocksIs(g.tableStart, g.blockSize);
      BlocksIs(g.tableStart + 1, g.blockSize);
      MetadataInDisk(g);
      ok := fileTable.Flush(nvme);
      assert fileTable.entries[..] == old(fileTable.entries[..]);
    }

    // ---- xTruncate ----

    /** Shorten the file and give back the blocks it no longer needs; it keeps at least one. */
    method Truncate(ghost g: Superblock, file: HeavenFile, size: nat) returns (code: Code)
      requires Valid(g) && FileOk(g, file)
      modifies allocator, fileTable, fileTable.entries, file
      ensures Valid(g) && code == OK
      ensures TruncateStep(g, old(Contents()), Contents(), old(file.Value()), file.Value(), size)
    {
      hide GeometryOk, Visible, FitsDisk, Has, Blocks, BlockOf, Range, Members, TruncateStep, BlocksKept;
      ghost var s, h := Contents(), file.Value();
      SlotInTable(g, s, h);
      TruncateIs(g, s, h, size);
      code := OK;
      if size > file.byteLength {
        return;
      }
      LengthFits(g, s, h);
      file.byteLength := size;
      var neededBlocks := NeededBlocks(g, size, file.blockSize);
      if neededBlocks < file.blockCount {
        CountFits(g, s, h);
        ReleaseTail(g, file, neededBlocks, size);
        Truncated(g, s, Contents(), h, file.Value(), size);
      }
    }

    method NeededBlocks(ghost g: Superblock, size: nat, bs: nat) returns (n: nat)
      requires g.blockSize == bs && bs > 0
      ensures n == BlocksKept(g, size)
    {
      n := if size == 0 then 1 else (size + bs - 1) / bs;
      RoundUpIs(g, size);
    }

    /** Free the blocks past `neededBlocks` and record the new extent. */
    method ReleaseTail(ghost g: Superblock, file: HeavenFile, neededBlocks: u64, size: u64)
      requires Valid(g) && FileOk(g, file) && neededBlocks < file.blockCount
      modifies allocator, fileTable, fileTable.entries, file`blockCount
      ensures Valid(g) && allocator.dirty && fileTable.dirty && |allocator.bitmap| == |old(allocator.bitmap)|
      ensures file.Value() == old(file.Value()).(blockCount := neededBlocks)
      ensures var e := old(fileTable.entries[..])[file.fileTableIndex];
              && allocator.Used() == old(allocator.Used()) - Range(e.startBlock + neededBlocks, old(file.blockCount) - neededBlocks)
              && fileTable.entries[..] == old(fileTable.entries[..])[file.fileTableIndex := e.(blockCount := neededBlocks, byteLength := size)]
    {
      hide GeometryOk, Visible, FitsDisk, Has, Blocks, BlockOf, Range, Members;
      var oldStartBlock := file.startLba - allocator.dataStartLba;
      allocator.Free(oldStartBlock + neededBlocks, file.blockCount - neededBlocks);
      file.blockCount := neededBlocks;
      var ok := fileTable.GetMut(file.fileTableIndex);
      if ok {
        var entry := fileTable.entries[file.fileTableIndex];
        fileTable.entries[file.fileTableIndex] := entry.(blockCount := neededBlocks, byteLength := size);
      }
    }

    // ---- xDelete, xAccess, xFileSize ----

    /** Remove the entry and free its blocks; a missing file is no error. */
    method Delete(ghost g: Superblock, name: seq<byte>) returns (code: Code)
      requires Valid(g)
      modifies allocator, fileTable, fileTable.entries
      ensures Valid(g) && code == OK
      ensures DeleteStep(g, old(Contents()), Contents(), name)
    {
      hide Visible, FitsDisk, Has, Blocks, Range, FindFrom;
      var found := fileTable.Lookup(name);
      FindIs(fileTable.entries[..], name, found);
      if found.FoundAt? {
        var startBlock, blockCount := fileTable.entries[found.index].startBlock, fileTable.entries[found.index].blockCount;
        var deleted := fileTable.Delete(found.index);
        allocator.Free(startBlock, blockCount);
      }
      return OK;
    }

    /** Whether the name exists. */
    method Access(ghost g: Superblock, name: seq<byte>) returns (exists_: bool)
      requires Valid(g)
      ensures exists_ <==> Find(Contents().table, name).FoundAt?
    {
      var found := fileTable.Lookup(name);
      FindIs(fileTable.entries[..], name, found);
      return found.FoundAt?;
    }
  }

  // ---- Why operations fail ----

  /** A read returns data exactly when the device is ready and nothing was refused; past the end it needs neither. */
  ghost predicate ReadExplained(g: Superblock, h: Handle, amount: nat, offset: nat, code: Code, ready: bool, before: Refusals, after: Refusals)
  {
    if offset >= h.byteLength then after == before
    else
      && g.blockSize > 0 && amount > 0
      && Caused(code, ready, BlocksEnd(g, offset, Least(amount, h.byteLength - offset)) - FirstBlock(g, offset), before, after)
      && (code == OK || code == IOERR_SHORT_READ <==> ready && after == before)
  }

  lemma PastEndExplained(g: Superblock, h: Handle, amount: nat, offset: nat, ready: bool, before: Refusals)
    requires offset >= h.byteLength
    ensures ReadExplained(g, h, amount, offset, IOERR_SHORT_READ, ready, before, before)
  {
  }

  lemma NotReadyExplained(g: Superblock, h: Handle, amount: nat, offset: nat, before: Refusals)
    requires g.blockSize > 0 && amount > 0 && offset < h.byteLength
    ensures ReadExplained(g, h, amount, offset, IOERR, false, before, before)
  {
    hide BlockOf;
  }

  lemma FetchExplained(g: Superblock, h: Handle, amount: nat, offset: nat, code: Code, short: bool, before: Refusals, after: Refusals)
    requires g.blockSize > 0 && amount > 0 && offset < h.byteLength
    requires Caused(code, true, BlocksEnd(g, offset, Least(amount, h.byteLength - offset)) - FirstBlock(g, offset), before, after)
    requires (code == OK <==> after == before) && code != IOERR_SHORT_READ
    ensures ReadExplained(g, h, amount, offset, if code == OK && short then IOERR_SHORT_READ else code, true, before, after)
  {
    hide BlockOf;
  }

  ghost predicate GrowExplained(g: Superblock, s: Store, needed: nat, code: Code, ready: bool, before: Refusals, after: Refusals) {
    && Caused(code, ready, 0, before, after)
    && (code == FULL <==> ready && NoRun(Members(s.words), g.dataBlocks, needed, 1))
    && (code == OK <==> ready && after == before && code != FULL)
  }

  /** A write fails exactly when the device is not ready, or something was refused, or the file must grow
      and no run of free blocks is long enough. */
  ghost predicate WriteExplained(g: Superblock, s: Store, h: Handle, data: seq<byte>, offset: nat, code: Code, ready: bool,
                                 before: Refusals, after: Refusals)
  {
    && g.blockSize > 0 && |data| > 0
    && var needed := BlocksEnd(g, offset, |data|);
    && Caused(code, ready, needed - FirstBlock(g, offset), before, after)
    && (code == FULL <==> ready && needed > h.blockCount && NoRun(Members(s.words), g.dataBlocks, needed, 1))
    && (code == OK <==> ready && after == before && code != FULL)
  }

  /** The growing part of a write: when it fails the write fails alike, else nothing has been refused yet. */
  lemma GrowingWriteSoFar(g: Superblock, s: Store, s': Store, h: Handle, h': Handle, data: seq<byte>, offset: nat, code: Code,
                          ready: bool, before: Refusals, after: Refusals)
    requires g.blockSize > 0 && |data| > 0 && h.slot < |s.table| && BlocksEnd(g, offset, |data|) > h.blockCount
    requires GrowStep(g, s, s', h, h', BlocksEnd(g, offset, |data|), code)
    requires GrowExplained(g, s, BlocksEnd(g, offset, |data|), code, ready, before, after)
    ensures code != OK ==> WriteStep(g, s, s', h, h', data, offset, code)
    ensures code != OK ==> WriteExplained(g, s, h, data, offset, code, ready, before, after)
    ensures code == OK ==> ready && after == before && h'.blockCount == BlocksEnd(g, offset, |data|)
    ensures code == OK ==> !NoRun(Members(s.words), g.dataBlocks, BlocksEnd(g, offset, |data|), 1)
  {
    hide Blocks, Members, NoRun, LowestRun, BitmapBecame, DiskStep, At, BlockOf, Range;
    assert FirstBlock(g, offset) < BlocksEnd(g, offset, |data|) by {
      BlockOfMono(offset, offset + |data| - 1, g.blockSize);
    }
  }

  /** The overwrite ends the write, after growth or without. */
  lemma WriteOutcome(g: Superblock, s: Store, s1: Store, s': Store, h: Handle, h1: Handle, h': Handle, data: seq<byte>, offset: nat,
                     code: Code, ready: bool, before: Refusals, after: Refusals)
    requires g.blockSize > 0 && |data| > 0 && h.slot < |s.table|
    requires if BlocksEnd(g, offset, |data|) > h.blockCount
             then ready && GrowStep(g, s, s1, h, h1, BlocksEnd(g, offset, |data|), OK)
                  && !NoRun(Members(s.words), g.dataBlocks, BlocksEnd(g, offset, |data|), 1)
             else s1 == s && h1 == h
    requires OverwriteStep(g, s1, s', h1, h', data, offset, code)
    requires Caused(code, ready, BlocksEnd(g, offset, |data|) - FirstBlock(g, offset), before, after)
    requires code == OK <==> ready && after == before
    ensures WriteStep(g, s, s', h, h', data, offset, code)
    ensures WriteExplained(g, s, h, data, offset, code, ready, before, after)
  {
    hide Blocks, Members, NoRun, GrowStep, DiskStep, BlockOf, Unflushed;
  }

  /** The blocks of a transfer inside an extent are on the disk. */
  lemma TransferInDisk(g: Superblock, s: Store, h: Handle, startBlock: nat, blockCount: nat)
    requires GeometryOk(g) && HandleOk(g, s, h) && startBlock + blockCount <= h.blockCount
    ensures Blocks(h.startLba + startBlock, g.blockSize) + Blocks(blockCount, g.blockSize) <= DiskSize(g)
  {
    hide Blocks, Members, Range;
    BlocksAdd(h.startLba + startBlock, blockCount, g.blockSize);
    BlocksMono(h.startLba + startBlock + blockCount, g.totalBlocks, g.blockSize);
  }

  /** Source and target of a move are on the disk. */
  lemma CopyInDisk(g: Superblock, s: Store, h: Handle, to: nat, needed: nat)
    requires GeometryOk(g) && HandleOk(g, s, h) && needed > h.blockCount
    requires LowestRun(Members(s.words), g.dataBlocks, needed, 1, to)
    ensures Blocks(h.startLba + h.blockCount, g.blockSize) <= DiskSize(g)
    ensures Blocks(g.dataStart + to + h.blockCount, g.blockSize) <= DiskSize(g)
  {
    hide Blocks, Members, Range;
    BlocksMono(h.startLba + h.blockCount, g.totalBlocks, g.blockSize);
    BlocksMono(g.dataStart + to + h.blockCount, g.totalBlocks, g.blockSize);
  }

  /** The bitmap region and the table block are on the disk. */
  lemma MetadataInDisk(g: Superblock)
    requires GeometryOk(g)
    ensures (g.bitmapStart + g.bitmapBlocks) * g.blockSize <= DiskSize(g)
    ensures g.tableStart * g.blockSize + g.blockSize <= DiskSize(g)
  {
    hide Blocks;
    BlocksIs(g.bitmapStart + g.bitmapBlocks, g.blockSize);
    BlocksMono(g.bitmapStart + g.bitmapBlocks, g.totalBlocks, g.blockSize);
    BlocksIs(g.tableStart + 1, g.blockSize);
    BlocksMono(g.tableStart + 1, g.totalBlocks, g.blockSize);
    MulAdd(g.tableStart, 1, g.blockSize);
  }

  lemma HandleStart(g: Superblock, s: Store, h: Handle)
    requires HandleOk(g, s, h)
    ensures h.startLba == g.dataStart + s.table[h.slot].startBlock && h.blockCount == s.table[h.slot].blockCount
  {
    hide Blocks, Members, Range;
  }

  /** A moved file's handle agrees with its entry. */
  lemma HandleMovedOk(g: Superblock, s: Store, s': Store, h: Handle, h': Handle, needed: u64, b: u64)
    requires HandleOk(g, s, h) && LowestRun(Members(s.words), g.dataBlocks, needed, 1, b) && needed > h.blockCount
    requires s'.table == s.table[h.slot := s.table[h.slot].(startBlock := b, blockCount := needed)]
    requires h' == h.(startLba := g.dataStart + b, blockCount := needed)
    requires Members(s'.words) == Members(s.words) + Range(b, needed) - Range(s.table[h.slot].startBlock, h.blockCount)
    ensures HandleOk(g, s', h')
  {
    hide Blocks, Members;
    BlocksMono(h.blockCount, needed, g.blockSize);
  }

  // ---- Facts the methods use ----

  lemma CopiedSlice(data: seq<byte>, d: seq<byte>, b: seq<byte>, at: nat, from: nat, n: nat)
    requires at + |d| <= |data| && d == data[at..at + |d|] && from + n <= |d| && |b| == n
    requires forall i :: 0 <= i < n ==> b[i] == d[from + i]
    ensures b == data[at + from..at + from + n]
  {
    SliceOfSlice(data, at, at + |d|, from, from + n);
    assert b == d[from..from + n];
  }

  ghost predicate BlocksMoved(g: Superblock, before: seq<byte>, after: seq<byte>, fromLba: nat, to: nat, count: nat) {
    && At(g, to) + Blocks(count, g.blockSize) <= |before| == |after|
    && Blocks(fromLba, g.blockSize) + Blocks(count, g.blockSize) <= |before|
    && ExtentBytes(g, after, to, Blocks(count, g.blockSize))
       == before[Blocks(fromLba, g.blockSize)..Blocks(fromLba, g.blockSize) + Blocks(count, g.blockSize)]
  }

  /** The buffer holds the blocks from `startLba` on with `data` laid over; when `data` fills it, they do not matter. */
  ghost predicate BufferPatched(disk: seq<byte>, startLba: nat, size: nat, buf: seq<byte>, inFirst: nat, data: seq<byte>) {
    if inFirst == 0 && |data| == |buf| then buf == data
    else
      && inFirst + |data| <= |buf| && Blocks(startLba, size) + |buf| <= |disk|
      && buf == Splice(disk[Blocks(startLba, size)..Blocks(startLba, size) + |buf|], inFirst, data)
  }

  lemma SplicedAt(before: seq<byte>, after: seq<byte>, at: nat, data: seq<byte>)
    requires |after| == |before| && at + |data| <= |before|
    requires forall i :: at <= i < at + |data| ==> after[i] == data[i - at]
    requires forall i :: 0 <= i < |before| && !(at <= i < at + |data|) ==> after[i] == before[i]
    ensures after == Splice(before, at, data)
  {
    var r := Splice(before, at, data);
    forall i | at <= i < at + |data| ensures r[i] == data[i - at] {
      assert r[at..at + |data|][i - at] == r[i];
    }
  }

  lemma PatchedBlocks(before: seq<byte>, after: seq<byte>, lba: nat, count: nat, size: nat, buf: seq<byte>, inFirst: nat, data: seq<byte>)
    requires BlocksWritten(before, after, lba, count, size, buf) && BufferPatched(before, lba, size, buf, inFirst, data)
    requires inFirst + |data| <= |buf|
    ensures after == Splice(before, Blocks(lba, size) + inFirst, data)
  {
    hide Blocks;
    if !(inFirst == 0 && |data| == |buf|) {
      SpliceInside(before, Blocks(lba, size), |buf|, inFirst, data);
    }
  }

  /** Patching a slice and putting it back patches the whole. */
  lemma SpliceInside(d: seq<byte>, at: nat, n: nat, from: nat, data: seq<byte>)
    requires at + n <= |d| && from + |data| <= n
    ensures Splice(d, at, Splice(d[at..at + n], from, data)) == Splice(d, at + from, data)
  {
    var till := from + |data|;
    SliceOfSlice(d, at, at + n, 0, from);
    SliceOfSlice(d, at, at + n, till, n);
    AdjacentSlices(d, 0, at, at + from);
    AdjacentSlices(d, at + till, at + n, |d|);
    assert d[at..at + n][..from] == d[at..at + n][0..from] && d[at..at + n][till..] == d[at..at + n][till..n];
    FiveParts(d[0..at], d[at..at + from], data, d[at + till..at + n], d[at + n..|d|]);
  }

  lemma AdjacentSlices(d: seq<byte>, i: nat, j: nat, k: nat)
    requires i <= j <= k <= |d|
    ensures d[i..j] + d[j..k] == d[i..k]
  {
  }

  lemma FiveParts(a: seq<byte>, b: seq<byte>, c: seq<byte>, d: seq<byte>, e: seq<byte>)
    ensures a + (b + c + d) + e == (a + b) + c + (d + e)
  {
  }

  lemma OverwriteFailed(g: Superblock, s: Store, s': Store, h: Handle, data: seq<byte>, offset: nat, startBlock: nat, blockCount: nat)
    requires g.blockSize > 0 && |data| > 0 && s' == s.(disk := s'.disk, trace := s'.trace)
    requires startBlock == FirstBlock(g, offset) && startBlock + blockCount == BlocksEnd(g, offset, |data|)
    requires DiskStep(s, s', Blocks(h.startLba + startBlock, g.blockSize), Blocks(h.startLba + startBlock + blockCount, g.blockSize))
    ensures OverwriteStep(g, s, s', h, h, data, offset, IOERR_WRITE)
    ensures s' == s ==> forall rc :: rc == IOERR || rc == IOERR_NOMEM || rc == IOERR_READ ==> OverwriteStep(g, s, s', h, h, data, offset, rc)
  {
    hide Blocks, DiskStep, FirstBlock, BlocksEnd;
    assert h.startLba + startBlock + blockCount == h.startLba + (startBlock + blockCount);
  }

  lemma OverwriteDone(g: Superblock, s: Store, s': Store, h: Handle, data: seq<byte>, offset: nat, startBlock: nat, blockCount: nat,
                      inFirst: nat, buf: seq<byte>)
    requires g.blockSize > 0 && |data| > 0 && s' == s.(disk := s'.disk, trace := s'.trace)
    requires startBlock == FirstBlock(g, offset) && startBlock + blockCount == BlocksEnd(g, offset, |data|)
    requires DiskStep(s, s', Blocks(h.startLba + startBlock, g.blockSize), Blocks(h.startLba + startBlock + blockCount, g.blockSize))
    requires Blocks(h.startLba + startBlock, g.blockSize) + inFirst == Blocks(h.startLba, g.blockSize) + offset
    requires BlocksWritten(s.disk, s'.disk, h.startLba + startBlock, blockCount, g.blockSize, buf)
    requires BufferPatched(s.disk, h.startLba + startBlock, g.blockSize, buf, inFirst, data) && inFirst + |data| <= |buf|
    requires AllUnflushed(s'.trace, Blocks(h.startLba + startBlock, g.blockSize), Blocks(h.startLba + startBlock + blockCount, g.blockSize))
    requires AllLanded(s.trace, s'.trace, s'.disk)
    ensures OverwriteStep(g, s, s', h, h.(byteLength := if offset + |data| > h.byteLength then offset + |data| else h.byteLength), data, offset, OK)
  {
    hide Blocks, DiskStep, FirstBlock, BlocksEnd, BufferPatched, Splice, Unflushed, SameOutside;
    PatchedBlocks(s.disk, s'.disk, h.startLba + startBlock, blockCount, g.blockSize, buf, inFirst, data);
    assert h.startLba + startBlock + blockCount == h.startLba + (startBlock + blockCount);
  }

  /** Whole blocks fill the buffer. */
  lemma WholeBlocks(n: nat, count: nat, size: nat)
    requires size > 0 && n % size == 0 && n <= Blocks(count, size) < n + size
    ensures n == Blocks(count, size)
  {
    BlocksIs(count, size);
    var q := n / size;
    assert n == q * size;
    if q < count {
      MulMono(q + 1, count, size);
      MulAdd(q, 1, size);
    } else {
      MulMono(count, q, size);
    }
  }

  /** Where the blocks of a transfer lie, and that they hold it without a whole block to spare. */
  lemma SpanPosition(g: Superblock, lba: nat, offset: nat, amount: nat, inFirst: nat)
    requires g.blockSize > 0 && amount > 0
    requires inFirst < g.blockSize && offset == Blocks(FirstBlock(g, offset), g.blockSize) + inFirst
    ensures var first, end := FirstBlock(g, offset), BlocksEnd(g, offset, amount);
            && first < end
            && Blocks(lba + first, g.blockSize) + inFirst == Blocks(lba, g.blockSize) + offset
            && inFirst + amount <= Blocks(end - first, g.blockSize) < inFirst + amount + g.blockSize
            && lba + first + (end - first) == lba + end
  {
    hide Blocks, BlockOf;
    var size := g.blockSize;
    var first, end := FirstBlock(g, offset), BlocksEnd(g, offset, amount);
    BlockOfMono(offset, offset + amount - 1, size);
    BlockOfBounds(offset + amount - 1, size);
    BlocksAdd(lba, first, size);
    BlocksAdd(first, end - first, size);
    BlocksAdd(end - 1, 1, size);
    BlocksIs(1, size);
    assert first + (end - first) == end && end - 1 + 1 == end;
  }

  /** The blocks kept by a truncation, by rounding up. */
  lemma RoundUpIs(g: Superblock, size: nat)
    requires g.blockSize > 0
    ensures (if size == 0 then 1 else (size + g.blockSize - 1) / g.blockSize) == BlocksKept(g, size)
  {
    if size > 0 {
      BlockOfIs(size - 1, g.blockSize);
      BlockOfIs(size - 1 + g.blockSize, g.blockSize);
    }
  }

  /** Truncations that change nothing on disk or in the table. */
  lemma TruncateIs(g: Superblock, s: Store, h: Handle, size: nat)
    requires GeometryOk(g) && h.slot < |s.table|
    ensures size > h.byteLength ==> TruncateStep(g, s, s, h, h, size)
    ensures size <= h.byteLength && BlocksKept(g, size) >= h.blockCount ==> TruncateStep(g, s, s, h, h.(byteLength := size), size)
  {
    hide BlocksKept;
  }

  lemma CountFits(g: Superblock, s: Store, h: Handle)
    requires GeometryOk(g) && HandleOk(g, s, h)
    ensures h.blockCount < 0x1_0000_0000_0000_0000
  {
  }

  lemma Truncated(g: Superblock, s: Store, s': Store, h: Handle, h': Handle, size: nat)
    requires GeometryOk(g) && h.slot < |s.table| && size <= h.byteLength && BlocksKept(g, size) < h.blockCount
    requires BlocksKept(g, size) < 0x1_0000_0000_0000_0000 && size < 0x1_0000_0000_0000_0000
    requires h' == h.(byteLength := size, blockCount := BlocksKept(g, size)) && SameDisk(s, s') && s'.tableDirty && s'.bitmapDirty
    requires s'.table == s.table[h.slot := s.table[h.slot].(blockCount := BlocksKept(g, size), byteLength := size)]
    requires |s'.words| == |s.words|
    requires Members(s'.words) == Members(s.words) - Range(s.table[h.slot].startBlock + BlocksKept(g, size), h.blockCount - BlocksKept(g, size))
    ensures TruncateStep(g, s, s', h, h', size)
  {
    hide BlocksKept, Members, Range;
  }

  /** A free run and the handle's extent are apart. */
  lemma ExtentApart(g: Superblock, s: Store, h: Handle, to: nat, needed: nat)
    requires HandleOk(g, s, h) && LowestRun(Members(s.words), g.dataBlocks, needed, 1, to) && needed > h.blockCount
    ensures h.startLba + h.blockCount <= g.dataStart + to || g.dataStart + to + h.blockCount <= h.startLba
  {
    hide Blocks;
    var b := s.table[h.slot].startBlock;
    if h.blockCount > 0 {
      var c: nat := if b < to then to else b;
      assert c in Range(b, h.blockCount) ==> c in Members(s.words);
    }
  }

  lemma FreedAgain(used: set<nat>, b: nat, n: nat, total: nat)
    requires LowestRun(used, total, n, 1, b)
    ensures used + Range(b, n) - Range(b, n) == used
  {
    assert used !! Range(b, n);
  }

  /** A flush writes nothing. */
  lemma FlushKeepsRange(earlier: seq<DeviceOp>, later: seq<DeviceOp>, flushed: seq<DeviceOp>, lo: nat, hi: nat)
    requires WroteOnly(earlier, later, lo, hi) && (flushed == later || flushed == later + [Flushed])
    ensures WroteOnly(earlier, flushed, lo, hi)
  {
  }

  lemma StoreRegions(g: Superblock)
    requires GeometryOk(g)
    ensures BitmapAt(g) <= TableAt(g) <= TableEnd(g)
  {
    hide Blocks;
    DiskRegions(g);
  }

  /** Writing the table leaves the bitmap region alone. */
  lemma BitmapStays(g: Superblock, s: Store, s': Store)
    requires GeometryOk(g) && SameOutside(s.disk, s'.disk, TableAt(g), TableEnd(g)) && |s.words| == WordCount(g)
    ensures WordsOnDisk(s.disk, BitmapAt(g), s.words) ==> WordsOnDisk(s'.disk, BitmapAt(g), s.words)
  {
    hide Blocks;
    DiskRegions(g);
  }

  lemma NoRoomToCreate(g: Superblock, s: Store, s': Store, name: seq<byte>)
    requires Find(s.table, name).NotFound? && s' == s && NoRun(Members(s.words), g.dataBlocks, INITIAL_ALLOC_BLOCKS, 1)
    ensures OpenStep(g, s, s', name, true, OpenFailed(FULL))
  {
    hide Find, NoRun, Members;
  }

  /** The allocation of a creation that found no slot is not undone. */
  lemma CreateFailed(g: Superblock, s: Store, s': Store, name: seq<byte>, b: nat)
    requires Find(s.table, name).NotFound? && LowestRun(Members(s.words), g.dataBlocks, INITIAL_ALLOC_BLOCKS, 1, b)
    requires s' == s.(words := s'.words, bitmapDirty := true) && |s'.words| == |s.words|
    requires Members(s'.words) == Members(s.words) + Range(b, INITIAL_ALLOC_BLOCKS)
    requires forall i :: 0 <= i < |s.table| ==> s.table[i].InUse()
    ensures OpenStep(g, s, s', name, true, OpenFailed(FULL))
  {
    hide Find, Members, LowestRun;
    MoreUsed(Members(s.words), g.dataBlocks, INITIAL_ALLOC_BLOCKS, b);
    assert Created(g, s, s', name, b, OpenFailed(FULL));
  }

  lemma CreatedIn(g: Superblock, s: Store, s': Store, name: seq<byte>, b: u64, i: nat)
    requires Find(s.table, name).NotFound? && LowestRun(Members(s.words), g.dataBlocks, INITIAL_ALLOC_BLOCKS, 1, b)
    requires s' == s.(words := s'.words, bitmapDirty := true, table := s'.table, tableDirty := true) && |s'.words| == |s.words|
    requires Members(s'.words) == Members(s.words) + Range(b, INITIAL_ALLOC_BLOCKS)
    requires i < |s.table| && !s.table[i].InUse() && forall j :: 0 <= j < i ==> s.table[j].InUse()
    requires s'.table == s.table[i := NewEntry(s.table[i], name, b, INITIAL_ALLOC_BLOCKS)]
    ensures OpenStep(g, s, s', name, true, Opened(Handle(i, g.dataStart + b, INITIAL_ALLOC_BLOCKS, 0)))
  {
    hide Find, Members, LowestRun;
    MoreUsed(Members(s.words), g.dataBlocks, INITIAL_ALLOC_BLOCKS, b);
    assert Created(g, s, s', name, b, Opened(Handle(i, g.dataStart + b, INITIAL_ALLOC_BLOCKS, 0)));
  }

  lemma ReadPastEnd(g: Superblock, s: Store, h: Handle, amount: nat, offset: nat, buf: seq<byte>)
    requires Blocks(h.startLba, g.blockSize) + h.byteLength <= |s.disk| && offset >= h.byteLength && buf == Zeros(amount)
    ensures ReadStep(g, s, h, amount, offset, buf, IOERR_SHORT_READ)
  {
  }

  lemma ReadFailed(g: Superblock, s: Store, h: Handle, amount: nat, offset: nat, buf: seq<byte>, rc: Code)
    requires Blocks(h.startLba, g.blockSize) + h.byteLength <= |s.disk| && offset < h.byteLength
    requires rc == IOERR || rc == IOERR_NOMEM || rc == IOERR_READ
    ensures ReadStep(g, s, h, amount, offset, buf, rc)
  {
  }

  lemma ReadServed(g: Superblock, s: Store, h: Handle, amount: nat, offset: nat, buf: seq<byte>, n: nat, rc: Code)
    requires Blocks(h.startLba, g.blockSize) + h.byteLength <= |s.disk| && offset < h.byteLength && |buf| == amount
    requires n == Least(amount, h.byteLength - offset) && rc == if n < amount then IOERR_SHORT_READ else OK
    requires buf[..n] == s.disk[Blocks(h.startLba, g.blockSize) + offset..Blocks(h.startLba, g.blockSize) + offset + n]
    requires buf[n..] == Zeros(amount - n)
    ensures ReadStep(g, s, h, amount, offset, buf, rc)
  {
    hide Blocks;
    var at := Blocks(h.startLba, g.blockSize);
    SliceOfSlice(s.disk, at, at + h.byteLength, offset, offset + n);
    assert buf == buf[..n] + buf[n..];
  }

  lemma CopyMoved(g: Superblock, s: Store, after: seq<byte>, h: Handle, to: nat, needed: nat)
    requires GeometryOk(g) && HandleOk(g, s, h) && |s.disk| == DiskSize(g) && needed > h.blockCount
    requires LowestRun(Members(s.words), g.dataBlocks, needed, 1, to)
    requires CopiedSoFar(s.disk, after, h.startLba, g.dataStart + to, h.blockCount,
                         Blocks(g.dataStart + to, g.blockSize), Blocks(g.dataStart + to + h.blockCount, g.blockSize), g.blockSize)
    ensures BlocksMoved(g, s.disk, after, h.startLba, to, h.blockCount)
  {
    hide Blocks, Members, Range;
    ExtentBound(g, s, h);
    AtAdd(g, to, h.blockCount);
    AtMono(g, to + h.blockCount, g.dataBlocks);
    DiskRegions(g);
    BlocksIs(0, g.blockSize);
  }

  lemma GrowRefused(g: Superblock, s: Store, h: Handle, needed: nat, rc: Code)
    requires h.slot < |s.table| && (rc == IOERR || (rc == FULL && NoRun(Members(s.words), g.dataBlocks, needed, 1)))
    ensures GrowStep(g, s, s, h, h, needed, rc)
  {
    hide NoRun, Members;
  }

  /** Freeing the new blocks after a failure gives the bitmap back as it was. */
  lemma GrowUndone(g: Superblock, s: Store, s1: Store, s': Store, h: Handle, needed: nat, b: nat, rc: Code)
    requires h.slot < |s.table| && (rc == IOERR_READ || rc == IOERR_WRITE || rc == IOERR_NOMEM || rc == IOERR_FSYNC)
    requires LowestRun(Members(s.words), g.dataBlocks, needed, 1, b) && DiskStep(s, s.(disk := s1.disk, trace := s1.trace), At(g, b), At(g, b + needed))
    requires s' == s.(disk := s1.disk, trace := s1.trace, words := s'.words, bitmapDirty := true) && |s'.words| == |s.words|
    requires Members(s'.words) == Members(s.words) + Range(b, needed) - Range(b, needed)
    ensures GrowStep(g, s, s', h, h, needed, rc)
  {
    hide Members, WroteOnly, SameOutside, Visible, FitsDisk, At;
    FreedAgain(Members(s.words), b, needed, g.dataBlocks);
    assert GrowthUndone(g, s, s', needed, b);
  }

  lemma GrowRelocated(g: Superblock, s: Store, s1: Store, s': Store, h: Handle, h': Handle, needed: u64, b: u64)
    requires h.slot < |s.table| && LowestRun(Members(s.words), g.dataBlocks, needed, 1, b)
    requires DiskStep(s, s.(disk := s1.disk, trace := s1.trace), At(g, b), At(g, b + needed))
    requires BlocksMoved(g, s.disk, s1.disk, h.startLba, b, h.blockCount) && h.startLba == g.dataStart + s.table[h.slot].startBlock
    requires s'.disk == s1.disk && s'.trace == s1.trace && s'.initial == s.initial && s'.bitmapDirty && s'.tableDirty
    requires s1.trace != [] && s1.trace[|s1.trace| - 1] == Flushed
    requires |s'.words| == |s.words|
    requires Members(s'.words) == Members(s.words) + Range(b, needed) - Range(s.table[h.slot].startBlock, h.blockCount)
    requires s'.table == s.table[h.slot := s.table[h.slot].(startBlock := b, blockCount := needed)]
    requires h' == h.(startLba := g.dataStart + b, blockCount := needed)
    ensures GrowStep(g, s, s', h, h', needed, OK)
  {
    hide Members, WroteOnly, SameOutside, Visible, FitsDisk, LowestRun, Blocks;
    assert Relocated(g, s, s', h, h', needed, b);
  }

  /** More used blocks do not hurt a handle. */
  lemma StillOk(g: Superblock, s: Store, s1: Store, h: Handle, more: set<nat>)
    requires HandleOk(g, s, h) && s1.table == s.table && Members(s1.words) == Members(s.words) + more
    ensures HandleOk(g, s1, h)
  {
    hide Members, Range, Blocks;
  }

  lemma StartFits(g: Superblock, s: Store, n: nat, b: nat)
    requires GeometryOk(g) && LowestRun(Members(s.words), g.dataBlocks, n, 1, b)
    ensures b < 0x1_0000_0000_0000_0000 && n < 0x1_0000_0000_0000_0000
  {
  }

  lemma MoreUsed(used: set<nat>, total: nat, n: nat, b: nat)
    requires LowestRun(used, total, n, 1, b) && n > 0
    ensures used + Range(b, n) != used
  {
    assert b in Range(b, n) && b !in used;
  }

  lemma LengthFits(g: Superblock, s: Store, h: Handle)
    requires GeometryOk(g) && HandleOk(g, s, h)
    ensures h.byteLength < 0x1_0000_0000_0000_0000
  {
    ExtentBound(g, s, h);
  }

  lemma ExtentBound(g: Superblock, s: Store, h: Handle)
    requires GeometryOk(g) && HandleOk(g, s, h)
    ensures Blocks(h.startLba, g.blockSize) + Blocks(h.blockCount, g.blockSize) <= DiskSize(g)
  {
    hide Blocks;
    BlocksAdd(h.startLba, h.blockCount, g.blockSize);
    BlocksMono(h.startLba + h.blockCount, g.totalBlocks, g.blockSize);
  }

  lemma HandleInDisk(g: Superblock, s: Store, h: Handle)
    requires GeometryOk(g) && HandleOk(g, s, h) && |s.disk| == DiskSize(g)
    ensures Blocks(h.startLba, g.blockSize) + h.byteLength <= |s.disk|
  {
    ExtentBound(g, s, h);
  }

  /** The blocks of a transfer inside the file lie inside its extent. */
  lemma TransferFits(g: Superblock, h: Handle, offset: nat, amount: nat)
    requires g.blockSize > 0 && amount > 0 && offset + amount <= Blocks(h.blockCount, g.blockSize)
    ensures BlocksEnd(g, offset, amount) <= h.blockCount
  {
    hide Blocks, BlockOf;
    BlockOfBounds(offset + amount - 1, g.blockSize);
    var end := BlocksEnd(g, offset, amount);
    if h.blockCount < end {
      BlocksMono(h.blockCount, end - 1, g.blockSize);
    }
  }

  lemma SlotInTable(g: Superblock, s: Store, h: Handle)
    requires HandleOk(g, s, h)
    ensures h.slot < |s.table|
  {
  }
}
