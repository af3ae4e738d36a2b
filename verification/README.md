# HeavenOS, a verified model

HeavenOS is a small kernel that stores SQLite databases on an NVMe disk, talks to a language-model service
over a virtio network card, and runs Lua. This project models its four cores in Dafny and proves what they are for.

- **Storage.** `RamDisks`, `BlockAlloc`, `FileTables`, `VfsIo`, `Vfs` and `StorageInit` are the device, the
  block bitmap, the file table, block transfers, the SQLite VFS and mounting, as classes that change state in place.
  Each VFS method is proved to take a step of `VfsModel`; `VfsInvariant`, `VfsRefinement`, `VfsDurability` and
  `VfsPowerLoss` prove about these steps that every run refines a map from names to byte strings, keeps the bitmap,
  table and handles consistent, and what survives a power loss; `PowerLossExample` is a run that does not. `ShmLocks` is the WAL lock table, `JulianDay` the clock.
- **Memory.** `PhysAlloc` is the page allocator, `SlabHeap` the heap inside a memory of 64-bit words with its
  headers and threaded free lists. Its methods take the steps of `HeapModel`; `HeapRuns` proves ownership and
  disjointness over runs, `HeapPages` accounts for every page. `LuaAlloc` is the Lua budget on top.
- **Rings.** `Virtqueues`, `VirtioNet` and `NvmeQueues` are two-party protocols: the driver's methods are proved
  to take protocol steps, and the theorems are about every interleaving with a conforming device.
- **Wire formats.** `Json` holds the recursive-descent parser as a class with a position and the grammar it is
  proved against; `JsonText` the escaping, `JsonSpelling` every other way to write a string, `JsonLaws` the number grammar, splice and
  round-trip laws, `JsonGrammar` that nothing but JSON is accepted; `ApiRequest` the request body, `Http` and `Streaming` the incremental reader of server-sent events.
  `HttpLaws` and `StreamingReply` print heads and replies as servers send them, and prove that they are understood. `Der` is
  the certificate walker.

`Bits`, `Bytes`, `Runs`, `Rings` and `Utf8` are shared vocabulary: words as sets of indices, byte positions,
contiguous free runs, ring slots, and Unicode text.

## How the parts fit

A class method's postcondition is a step relation between the old and the new abstract state, or equality with a
specification function. The relations state what every branch does for each result code. The theorems are then about
arbitrary runs of steps. Nondeterminism that the kernel does not control is explicit: a device command may be refused
and then damage any byte it addressed; a DMA buffer may be denied; a power loss keeps or damages any byte
written since the last flush; other users take and return pages between heap calls; the network and NVMe devices
take, return and post in any order that their standards allow (Virtio 1.0, section 2.4; NVM Express 1.4,
section 4.6).

The step relations of reads, writes and syncs allow an error code at any time. The methods do not: `RamDisks.Environment` counts every refused
command and denied buffer, and each method of the storage stack is proved to fail exactly when something was refused,
the device was never initialised, or the disk has no room (`Vfs.ReadExplained`, `Vfs.WriteExplained`, `VfsIo.Caused`).

The invariants are inhabited: a formatted disk (`StorageInit.FormattedStore`), a fresh heap
(`HeapRuns.FreshHeapOk`), a new queue (`Virtqueues.FreshQueueOk`, `NvmeQueues.FreshPairOk`), a filled receive pool
(`VirtioNet.VirtioNet.FillRxPool`) and a new lock table satisfy them.

## What the code does differently from what it says

- The growth path calls freeing the old blocks safe because the table already points to the new ones
  (`kernel/src/vfs/sqlite_vfs.rs:419`). The table in memory does; the one on the disk does not until the next sync
  (`VfsDurability.OldBlocksFreeBeforeFlush`). One growing write is safe (`GrowingWriteIsCrashSafe`), and so is any run
  that spares the recorded bytes (`VfsPowerLoss.SparingRunIsCrashSafe`); an overwrite of recorded bytes is not
  (`WriteCrashSafeIff`, `WriteLossSafeIff`), nor are two growing writes when the second is given the extent the first
  has left (`PowerLossExample.TwoWritesLoseAFile`).
- Boot takes every failure to load for a blank disk and formats it (`kernel/src/main.rs:279`): one refused read, or one
  denied buffer, while superblock or bitmap are loaded and every file is gone (`StorageInit.InitStorage`,
  `FileToLose`, `NothingLeft`).
- A failed creation in a full table leaks 16 blocks (`VfsRefinement.LeaksIff`); the invariant tracks them.
- A lock request past the last slot fails but keeps what it took (`ShmLocks.FailedLockChangesIff`).
- The class of 4096 bytes can never be served (`HeapRuns.MallocNullIff`).
- The completion entry is decoded at other bit positions than section 4.6 of NVM Express 1.4 gives
  (`NvmeQueues.DecodeIsRightIff`): the code's poll goes by the parity of identifiers (`CodeSeesIff`), and never sees the
  answer to its first command (`FirstAnswerUnseen`). The queue theorems take the entry as a record with phase and status.
- After a time-out, completions are no longer matched to commands (`NvmeQueues.TimeoutMixesAnswers`), until nothing is
  outstanding (`OwnAnswersIffIdle`).
- A received frame no longer than the header costs its buffer: it is not posted again, and reception ends when the pool
  is used up (`VirtioNet.RuntsDrainThePool`, `DrainedReceivesNothing`).
- The client's `unescape_json` drops both halves of a surrogate pair (`JsonSpelling.UnescapeSpelled`); the parser joins them,
  and drops a low half that stands alone (`LowAloneIsDropped`).
- A tool call with an empty identifier is not reported (`StreamingReply.CallsOf`), and a stream whose lines end with CR LF
  gives no events (`StreamingReply.CrLfEndsNothing`).
- File names over 63 bytes, or with a NUL, are stored cut and not found again (`FileTables.NameKeptIff`).

## Model

| member | source | states |
|---|---|---|
| `VfsRefinement.RunRefines` | kernel/src/vfs/sqlite_vfs.rs:218-588 | Over every run of open, close, read, write, truncate, delete and sync, from a consistent state, each state is consistent and each event does to the map from names to byte strings what its caller expects: a successful write splices exactly its data, a read returns exactly the slice with zeros past the end, no event changes another file, and opening is answered as the map and the free space say. |
| `VfsRefinement.StepRefines` | kernel/src/vfs/sqlite_vfs.rs:218-588 | One event does that, including relocation on growth, partial-block read-modify-write, multi-command transfers and all error exits. |
| `VfsRefinement.StepKeepsInv` | kernel/src/vfs/sqlite_vfs.rs:218-588 | Every event keeps: extents pairwise disjoint and inside the data region, bitmap bits equal to the extents plus the leaked blocks, names unique, length within extent, open handles agreeing with their entries, and not dirty meaning disk equals RAM. |
| `VfsRefinement.OpenKeepsInv` | kernel/src/vfs/sqlite_vfs.rs:218-256 | Opening keeps the invariant; a file that is created is empty and in a slot that was free, and a failed opening changes neither table nor disk. |
| `VfsRefinement.OpenAnswered` | kernel/src/vfs/sqlite_vfs.rs:218-256 | Opening a name that is present always gives a handle of the file's length; an absent one is refused with CANTOPEN exactly when it is not to be created, created exactly when sixteen blocks in a row and a slot are free, and refused as full otherwise. |
| `VfsRefinement.LeaksIff` | kernel/src/vfs/sqlite_vfs.rs:236-246 | Opening loses blocks exactly when the file is to be created and does not exist, sixteen blocks in a row are free, and every slot is in use; what it loses is then the lowest such run. |
| `VfsRefinement.HandlesFit` | kernel/src/vfs/sqlite_vfs.rs:261-588 | In every consistent state each open handle meets what close, read, write, truncate and sync demand of it. |
| `VfsRefinement.WriteRefines` | kernel/src/vfs/sqlite_vfs.rs:342-483 | A write that succeeds splices its data into that one file; one that fails changes at most the file blocks it addressed, and nothing at all unless the device write itself failed. |
| `VfsRefinement.GrowKeepsViews` | kernel/src/vfs/sqlite_vfs.rs:370-428 | Moving a file to a larger extent is invisible: every file, the moved one included, shows the same bytes. |
| `VfsRefinement.GrowFailureKeepsViews` | kernel/src/vfs/sqlite_vfs.rs:370-412 | Growth that fails after its allocation shows every file as it was. |
| `VfsRefinement.GrowFailureKeepsInv` | kernel/src/vfs/sqlite_vfs.rs:370-412 | ... and keeps the invariant, the bitmap being what it was before. |
| `VfsRefinement.TruncateRefines` | kernel/src/vfs/sqlite_vfs.rs:535-567 | Truncation leaves exactly the prefix and never lengthens a file. |
| `VfsRefinement.DeleteRefines` | kernel/src/vfs/sqlite_vfs.rs:572-588 | After a delete the name is absent and every other name shows the same bytes. |
| `VfsRefinement.ReadRefines` | kernel/src/vfs/sqlite_vfs.rs:275-333 | A read that succeeds returns the slice of the file; a short read is filled with zeros and says so. |
| `VfsInvariant.FreeRunApart` | kernel/src/vfs/sqlite_vfs.rs:357-370 | A run that the bitmap calls free is apart from the extent of every file. |
| `VfsDurability.SyncThenMount` | kernel/src/vfs/sqlite_vfs.rs:492-525 | After a sync returns OK, whatever a power loss does, mounting the disk rebuilds superblock, bitmap, free count and every table entry exactly. |
| `VfsDurability.SyncThenRestart` | kernel/src/vfs/sqlite_vfs.rs:492-525 | ... and the synced file and every closed file show the same bytes after the restart. |
| `VfsDurability.MountRebuilds` | kernel/src/storage/block_alloc.rs:168-228 | Loading a disk that holds a geometry, a bitmap and a table gives back exactly these, with the free count equal to the number of clear bits. |
| `VfsDurability.CleanStoreMounts` | kernel/src/vfs/sqlite_vfs.rs:492-525 | A store with nothing dirty is what its disk mounts as. |
| `VfsDurability.GrowingWriteIsCrashSafe` | kernel/src/vfs/sqlite_vfs.rs:370-420 | From a just-synced state, at every point of a growing write and at each of its error exits, with any unflushed bytes lost or damaged, remounting finds exactly the files and bytes recorded before the write. |
| `VfsDurability.WriteCrashSafeIff` | kernel/src/vfs/sqlite_vfs.rs:430-483 | A successful write after a sync is safe against power loss in this sense if and only if it grows the extent or starts in a block past the recorded length. |
| `VfsDurability.OldBlocksFreeBeforeFlush` | kernel/src/vfs/sqlite_vfs.rs:414-420 | After a growing write the old extent is allocatable although the table on disk still names it. |
| `VfsDurability.MovedCopyIsDurable` | kernel/src/vfs/sqlite_vfs.rs:406-416 | When growth has moved a file, the copy has been flushed: no power loss can take it, so the table may point to it. |
| `VfsDurability.ConfinedIsSafe` | kernel/src/vfs/sqlite_vfs.rs:430-483 | Unflushed writes that touch neither metadata nor recorded file bytes are safe against power loss. |
| `VfsPowerLoss.CrashSafeIff` | kernel/src/vfs/sqlite_vfs.rs:370-483 | Any operations on the data region after a sync are crash safe if and only if every byte of a recorded file is durable with its recorded value. |
| `VfsPowerLoss.SparingRunIsCrashSafe` | kernel/src/vfs/sqlite_vfs.rs:218-588 | Any number of operations after a sync, whichever way each of them ends, is crash safe as long as no write lands on recorded bytes: neither the blocks it addresses nor the lowest free run it moves to, both known before the call. |
| `VfsPowerLoss.WriteOnRecordedIsNotSafe` | kernel/src/vfs/sqlite_vfs.rs:430-483 | A successful write whose data lands on a block with a recorded byte ends the safety, at whatever point of a run it comes. |
| `VfsPowerLoss.TwoGrowingWritesAreNotSafe` | kernel/src/vfs/sqlite_vfs.rs:370-420 | Two growing writes, the second being given the extent the first has left: the first alone is crash safe, both together are not. |
| `PowerLossExample.TwoWritesLoseAFile` | kernel/src/vfs/sqlite_vfs.rs:370-420 | Such a run exists: a synced disk with two files, two successful appends, and a power loss after which a recorded file has lost its bytes. |
| `PowerLossExample.AppendCanSucceed` | kernel/src/vfs/sqlite_vfs.rs:357-483 | From every consistent state, an append for which a long enough run is free has a successful outcome. |
| `VfsPowerLoss.CrashKeepsViews` | kernel/src/vfs/sqlite_vfs.rs:492-525 | After crash safe operations and a power loss, the mounted disk shows under every name what a restart at the sync would have shown. |
| `VfsPowerLoss.WriteLossSafeIff` | kernel/src/vfs/sqlite_vfs.rs:430-483 | When power loss only loses whole writes: a successful write after a sync is safe if and only if it grows the file or puts no new value on a recorded byte. |
| `VfsPowerLoss.WriteLands` | kernel/src/vfs/sqlite_vfs.rs:342-483 | A write, however it ends, writes nothing or only to the blocks where it lands. |
| `RamDisks.CrashOutsideUnchanged` | kernel/src/storage/mock_device.rs:60-79 | A byte not written since the last flush has after a power loss the value it had at the flush. |
| `RamDisks.LostWritesGiveCrashImage` | kernel/src/storage/mock_device.rs:60-79 | Losing any subset of the writes since the last flush is one of the power losses considered. |
| `RamDisks.OutsideUnchanged` | kernel/src/storage/mock_device.rs:60-74 | Operations that write only a range leave every other byte as it was. |
| `RamDisks.RamDisk.ReadBlocks` | kernel/src/storage/mock_device.rs:44-58 | A read succeeds exactly when its blocks are on the disk and the device does not refuse, and then copies exactly the addressed bytes and leaves the rest of the buffer alone. |
| `RamDisks.RamDisk.WriteBlocks` | kernel/src/storage/mock_device.rs:60-74 | A write succeeds exactly when its blocks are on the disk and the device does not refuse, and then splices exactly the buffer in; a refused one touches at most the addressed blocks. |
| `RamDisks.RamDisk.Flush` | kernel/src/storage/mock_device.rs:76-79 | A flush changes no byte, and makes everything written so far durable exactly when the device does not refuse. |
| `Bits.SetBitAddsIndex` | kernel/src/storage/block_alloc.rs:259-264 | Setting bit i%64 of word i/64 adds exactly index i to the set that the words stand for. |
| `Bits.ClearBitRemovesIndex` | kernel/src/storage/block_alloc.rs:275-289 | `words[i/64] &= !(1 << (i%64))` removes exactly index i. |
| `Bits.TestBitIsMembership` | kernel/src/storage/block_alloc.rs:240-256 | Testing the mask is testing membership. |
| `Bits.MaskRoundsDown` | kernel/src/mem/phys.rs:172-177 | Masking with `!(2^k - 1)` rounds down to a multiple of 2^k. |
| `BlockAlloc.BlockAllocator.Alloc` | kernel/src/storage/block_alloc.rs:232-272 | Returns the lowest free run of the requested length and takes exactly it; refuses exactly when the length is zero or no such run exists, and then changes nothing. |
| `BlockAlloc.BlockAllocator.Free` | kernel/src/storage/block_alloc.rs:275-289 | Frees exactly the used blocks of the range; the counter stays the number of free bits. |
| `BlockAlloc.BlockAllocator.Format` | kernel/src/storage/block_alloc.rs:92-165 | Formatting a device in its full size succeeds exactly when nothing is refused; the disk then holds the superblock of the layout and zeroed metadata, is flushed, and matches the returned empty allocator. |
| `BlockAlloc.BlockAllocator.Load` | kernel/src/storage/block_alloc.rs:168-228 | Loading fails exactly when the disk has no valid superblock with its bitmap region, or something is refused; otherwise words, positions and free count are what superblock and bitmap region say. |
| `BlockAlloc.BlockAllocator.CountFree` | kernel/src/storage/block_alloc.rs:205-216 | The wrapping word-by-word sum is the number of free blocks whenever the set bits fit the disk. |
| `BlockAlloc.BlockAllocator.Flush` | kernel/src/storage/block_alloc.rs:297-329 | A dirty bitmap is written to its region and nowhere else, little-endian with zero tail, unless something is refused, and then it stays dirty; a clean one causes no I/O. |
| `BlockAlloc.OnesCountMembers` | kernel/src/storage/block_alloc.rs:205-216 | Adding up `count_ones` over the words counts the members of the set. |
| `BlockAlloc.ReadFlushedWords` | kernel/src/storage/block_alloc.rs:181-202 | Reading a flushed bitmap region gives back exactly the words that were flushed. |
| `BlockAlloc.LayoutFits` | kernel/src/storage/block_alloc.rs:101-124 | For every block size and every disk of at least two blocks the layout puts superblock, bitmap, table and data next to each other without overlap, and the bitmap region has a bit for each data block; it holds their words when block sizes are multiples of 8. |
| `BlockAlloc.DecodeEncodedSuperblock` | kernel/src/storage/block_alloc.rs:26-47 | The superblock read back is the one written. |
| `BlockAlloc.SuperblockLayout` | kernel/src/storage/block_alloc.rs:26-47 | Each field of the superblock stands little-endian at its offset. |
| `Runs.NoRunWithoutSpace` | kernel/src/storage/block_alloc.rs:232-239 | The early refusal on the counter is right: with fewer free units than asked for no run exists. |
| `FileTables.FileTable.Lookup` | kernel/src/storage/file_table.rs:152-159 | Finds the first in-use entry of that name, or there is none. |
| `FileTables.FileTable.Create` | kernel/src/storage/file_table.rs:172-190 | Fills the first free slot with a fresh entry; refuses exactly when every slot is in use. |
| `FileTables.FileTable.Delete` | kernel/src/storage/file_table.rs:193-202 | Empties exactly an in-use slot, and only reports and changes nothing otherwise. |
| `FileTables.FileTable.GetMut` | kernel/src/storage/file_table.rs:214-221 | Hands out an entry exactly when it is in use, marking the table dirty. |
| `FileTables.FileTable.Load` | kernel/src/storage/file_table.rs:97-121 | Loading fails exactly when the table block is not on the disk or something is refused; otherwise the entries are those decoded from it. |
| `FileTables.FileTable.Flush` | kernel/src/storage/file_table.rs:124-149 | A dirty table is stored in its block and nowhere else, unless something is refused, and then it stays dirty. |
| `FileTables.NameKeptIff` | kernel/src/storage/file_table.rs:64-74 | A stored name is read back if and only if it has at most 63 bytes and no NUL. |
| `FileTables.DecodeEncodedTable` | kernel/src/storage/file_table.rs:97-149 | Decoding an encoded table gives back all entries. |
| `FileTables.EntryLayout` | kernel/src/storage/file_table.rs:20-40 | An entry on the disk has its name at byte 0 and start, count, length, flags little-endian at 64, 72, 80 and 88. |
| `FileTables.FlagBit` | kernel/src/storage/file_table.rs:51-61 | Testing, setting and clearing the in-use flag touch bit 0 and nothing else. |
| `VfsIo.ChunkedRead` | kernel/src/vfs/sqlite_vfs.rs:26-61 | Any number of blocks on the disk, split into commands of at most 65535, arrives in the buffer unchanged and in place, exactly when nothing is refused; transfers of one command need no buffer of their own. |
| `VfsIo.ChunkedWrite` | kernel/src/vfs/sqlite_vfs.rs:64-99 | Any number of blocks on the disk is written in place exactly when nothing is refused; otherwise only bytes of the range have been written. |
| `VfsIo.CopyBlocks` | kernel/src/vfs/sqlite_vfs.rs:376-405 | Copying an extent to a disjoint one succeeds exactly when nothing is refused, and leaves the target equal to the source and everything else alone; each error has its cause. |
| `Vfs.HeavenVfs.Open` | kernel/src/vfs/sqlite_vfs.rs:218-256 | Opens the named file, or creates it in the lowest free 16-block run and first free slot; a name that is present always opens, and each error has its effects. |
| `Vfs.HeavenVfs.Close` | kernel/src/vfs/sqlite_vfs.rs:261-268 | Records the length of the handle in its entry. |
| `Vfs.HeavenVfs.Read` | kernel/src/vfs/sqlite_vfs.rs:275-333 | Takes the read step that the refinement theorem is about; inside the file it succeeds exactly when the device is ready and nothing is refused, and each error has its cause. |
| `Vfs.HeavenVfs.Write` | kernel/src/vfs/sqlite_vfs.rs:342-483 | Takes the write step; it succeeds exactly when the device is ready, nothing is refused, and the file need not grow or a long enough run is free; each error has its cause. |
| `Vfs.HeavenVfs.Grow` | kernel/src/vfs/sqlite_vfs.rs:357-428 | The file is in the lowest free run of the needed length with its old blocks copied, flushed and freed, or on any failure handle, table and bitmap are as before; it fails exactly when the device is not ready, something is refused, or no run exists. |
| `Vfs.HeavenVfs.Overwrite` | kernel/src/vfs/sqlite_vfs.rs:430-483 | Exactly the data is laid over the addressed bytes of the disk, or only the addressed blocks are damaged; it succeeds exactly when the device is ready and nothing is refused. |
| `Vfs.HeavenVfs.Sync` | kernel/src/vfs/sqlite_vfs.rs:492-525 | Length recorded, bitmap and table on the disk, device flushed, exactly when the device is ready and nothing is refused; on failure only what reached the disk is clean, the table only after the bitmap. |
| `Vfs.HeavenVfs.Truncate` | kernel/src/vfs/sqlite_vfs.rs:535-567 | Keeps the blocks that hold the remaining bytes, at least one, and frees exactly the tail. |
| `Vfs.HeavenVfs.Delete` | kernel/src/vfs/sqlite_vfs.rs:572-588 | Empties the entry and frees its extent; a missing name is no error. |
| `Vfs.HeavenVfs.Access` | kernel/src/vfs/sqlite_vfs.rs:592-595 | Whether some in-use entry has the name. |
| `Vfs.SpliceInside` | kernel/src/vfs/sqlite_vfs.rs:444-470 | Reading whole blocks, laying the data over them and writing them back changes exactly the addressed bytes. |
| `StorageInit.InitStorage` | kernel/src/main.rs:250-303 | A disk that holds a geometry, bitmap and table is mounted as exactly these, without being written, when nothing is refused; it is formatted exactly when something was refused while its superblock or bitmap was loaded, and a disk that is formatted has become an empty store with all invariants. |
| `StorageInit.FormattedStore` | kernel/src/storage/block_alloc.rs:92-165 | A freshly formatted disk is a consistent, empty store. |
| `StorageInit.MountedParts` | kernel/src/main.rs:260-272 | Reading the table right before the data finds the table that was written. |
| `StorageInit.FileToLose` | kernel/src/main.rs:260-281 | A valid disk with a file that mounting shows; by the contract of `InitStorage` one refusal at boot formats it. |
| `StorageInit.NothingLeft` | kernel/src/main.rs:279-297 | In a freshly formatted store every name is absent. |
| `StorageInit.SomeDiskMounts` | kernel/src/storage/block_alloc.rs:168-228 | Every geometry, bitmap and table that fit together are on some disk. |
| `ShmLocks.RunKeepsLocks` | kernel/src/vfs/sqlite_vfs.rs:166-193 | Over every run of clients that unlock only what they hold: the counter of each slot is its number of shared holders, and an exclusive holder is alone. |
| `ShmLocks.ExclusiveIsAlone` | kernel/src/vfs/sqlite_vfs.rs:178-182 | A slot held exclusively has no other holder of any kind. |
| `ShmLocks.FailedLockChangesIff` | kernel/src/vfs/sqlite_vfs.rs:622-666 | A lock request that fails leaves the table unchanged if and only if it met a conflict or began past the last slot; one that runs off the end keeps the slots it took. |
| `ShmLocks.LockGrantedIff` | kernel/src/vfs/sqlite_vfs.rs:632-654 | A request inside the table is granted if and only if no client is in the way: readers need a range without an owner, a writer one without any holder. Then the client is added to the holders of the range and nowhere else. |
| `ShmLocks.UnlockUndoesLock` | kernel/src/vfs/sqlite_vfs.rs:622-666 | Unlocking a range gives back exactly what locking it took. |
| `ShmLocks.LockKeepsInv` | kernel/src/vfs/sqlite_vfs.rs:632-654 | A lock request keeps the invariant, and success means that the client holds every slot of the range. |
| `ShmLocks.UnlockKeepsInv` | kernel/src/vfs/sqlite_vfs.rs:655-662 | Unlocking what is held keeps the invariant. |
| `ShmLocks.ShmState.Acquire` | kernel/src/vfs/sqlite_vfs.rs:632-654 | Takes all the slots or, on a conflict, none. |
| `ShmLocks.ShmState.GiveBack` | kernel/src/vfs/sqlite_vfs.rs:655-662 | Drops exactly the locks of the range. |
| `ShmLocks.ShmState.ShmLockRequest` | kernel/src/vfs/sqlite_vfs.rs:622-666 | Every request takes a step of the lock protocol and keeps its invariant. |
| `JulianDay.NextDayMs` | kernel/src/vfs/sqlite_vfs.rs:701-728 | The next calendar day at the same time is exactly 86,400,000 ms later, for every date with a non-negative year. |
| `JulianDay.NextSecondMs` | kernel/src/vfs/sqlite_vfs.rs:701-728 | One second later, over minutes, hours and midnight, the clock shows exactly 1000 ms more. |
| `JulianDay.NextDayNumber` | kernel/src/vfs/sqlite_vfs.rs:709-715 | The day number grows by one over every month end, leap day and year end of the 4/100/400 rule. |
| `JulianDay.ClockIncreases` | kernel/src/vfs/sqlite_vfs.rs:701-728 | The clock is strictly increasing in date and time. |
| `JulianDay.DayNumberIncreases` | kernel/src/vfs/sqlite_vfs.rs:709-715 | A later date has a larger day number. |
| `JulianDay.KnownDays` | kernel/src/vfs/sqlite_vfs.rs:701-728 | Noon is a whole number of days, and two dates have their published Julian day numbers. |
| `JulianDay.CommentAgrees` | kernel/src/vfs/sqlite_vfs.rs:704-715 | The formula in the comment and the one in the code have the same value on every valid date. |
| `PhysAlloc.PhysPageAllocator.Init` | kernel/src/mem/phys.rs:101-127 | Exactly the whole pages inside the usable regions become free, and the page total is that of the highest region. |
| `PhysAlloc.PhysPageAllocator.MarkUsed` | kernel/src/mem/phys.rs:130-143 | Exactly the given pages become used, none counted twice. |
| `PhysAlloc.PhysPageAllocator.AllocPagesContiguous` | kernel/src/mem/phys.rs:152-206 | Returns the lowest aligned run of free pages and takes exactly it; refuses exactly for a zero count, an alignment that is no power of two, or no such run, although the scan skips past each used page. |
| `PhysAlloc.PhysPageAllocator.AllocPage` | kernel/src/mem/phys.rs:146-148 | The lowest free page, or none is free. |
| `PhysAlloc.PhysPageAllocator.FreePages` | kernel/src/mem/phys.rs:209-226 | Exactly the given pages become free; the counter stays the number of free bits. |
| `PhysAlloc.SkippedPast` | kernel/src/mem/phys.rs:172-190 | After a used page no run that starts at or before it is free, so the skip loses none. |
| `PhysAlloc.AlignUp` | kernel/src/mem/phys.rs:172-177 | The masked sum is the lowest multiple of the alignment not below the candidate. |
| `PhysAlloc.PowerOfTwoIff` | kernel/src/mem/phys.rs:160-162 | `is_power_of_two` by bit count is being some 2^k. |
| `PhysAlloc.UsableBelowTotal` | kernel/src/mem/phys.rs:101-127 | Every page made free lies below the page total, so the scan reaches it. |
| `HeapRuns.RunKeepsHeap` | kernel/src/mem/heap.rs:123-261 | Over every run of malloc, free, realloc and writes into live blocks, with other users of the page allocator in between, the invariant holds, and a block not touched from some point on keeps its contents. |
| `HeapRuns.StepKeepsHeap` | kernel/src/mem/heap.rs:123-261 | One such event keeps the invariant and every block it does not touch. |
| `HeapRuns.LiveBlocksApart` | kernel/src/mem/heap.rs:123-197 | A live block overlaps no other block, no header and no free-list node; every header names size and class of its block, and every block that is not live is in the free list of its class. |
| `HeapRuns.MallocAllocates` | kernel/src/mem/heap.rs:208-217 | A non-null result is a new live block, large enough, with every other block as before; null is a call without effect. |
| `HeapRuns.MallocNullIff` | kernel/src/mem/heap.rs:78-168 | Exactly when malloc returns null: zero or impossible sizes, sizes 2049 to 4096, or no memory. |
| `HeapRuns.ReallocNullIff` | kernel/src/mem/heap.rs:233-261 | Exactly when realloc returns null: the block is too small and malloc of the new size would return null. |
| `HeapPages.FreeGivesPagesBack` | kernel/src/mem/heap.rs:170-197 | After freeing a block exactly the pages its header says a large block has are no longer in use, and no other page changes. |
| `HeapPages.MallocTakesPages` | kernel/src/mem/heap.rs:78-168 | A small block costs at most one page, which becomes a slab; a large one exactly the pages it reaches into, no more than its size needs; null costs none. |
| `HeapPages.UsedIsAccounted` | kernel/src/mem/heap.rs:123-261 | In every state a page in use is another user's, a slab, or reached into by a block whose header says it is large. |
| `HeapPages.StepKeepsOthers` | kernel/src/mem/heap.rs:123-261 | No heap call changes which pages in use are not the heap's. |
| `HeapPages.RunAccountsPages` | kernel/src/mem/heap.rs:123-261 | Nor does any run of heap calls: the pages that are not the heap's are the same at its end. |
| `HeapPages.NoLargeBlocksLeft` | kernel/src/mem/heap.rs:170-197 | When no block is large, the pages in use are the others' and the slabs: nothing of a large block is left behind. |
| `HeapRuns.ReallocKeepsPrefix` | kernel/src/mem/heap.rs:233-261 | Realloc returns the same block when it is large enough, else null without effect or a larger block that begins with the old payload; other blocks are untouched. |
| `HeapRuns.RefillKeepsInv` | kernel/src/mem/heap.rs:83-119 | Carving a page adds exactly its cells as free blocks and disturbs nothing else. |
| `HeapRuns.CarveFacts` | kernel/src/mem/heap.rs:99-116 | Carving threads the cells of the page, last one first, in front of the old list and writes each header. |
| `HeapRuns.LargeKeepsInv` | kernel/src/mem/heap.rs:146-166 | Giving whole pages to a large block keeps the invariant. |
| `HeapRuns.FreeKeepsInv` | kernel/src/mem/heap.rs:170-197 | Freeing a live block keeps the invariant and every other live block. |
| `HeapRuns.PayloadIsFree` | kernel/src/mem/heap.rs:170-197 | Whatever a client writes into its payload, neither the heap nor another payload changes. |
| `HeapRuns.FreeIsDefined` | kernel/src/mem/heap.rs:170-197 | The header of every live block leads free to its class or its pages. |
| `HeapRuns.FreshHeapOk` | kernel/src/mem/heap.rs:53-66 | The heap before the first call satisfies the invariant. |
| `SlabHeap.SlabAllocator.ClassForSize` | kernel/src/mem/heap.rs:78-80 | The first class that is large enough. |
| `SlabHeap.SlabAllocator.RefillClass` | kernel/src/mem/heap.rs:83-119 | Carves the lowest free page, or fails without effect when there is none or the cell exceeds a page. |
| `SlabHeap.SlabAllocator.Malloc` | kernel/src/mem/heap.rs:208-217 | Takes the malloc step in memory. |
| `SlabHeap.SlabAllocator.Free` | kernel/src/mem/heap.rs:221-229 | Takes the free step for a live pointer, giving back the pages of a large block, and does nothing for null. |
| `SlabHeap.SlabAllocator.Realloc` | kernel/src/mem/heap.rs:233-261 | Takes the realloc step, copying through memory. |
| `SlabHeap.SlabAllocator.MallocSize` | kernel/src/mem/heap.rs:265-271 | The usable size of a live block; 0 for null. |
| `LuaAlloc.RunStaysInBudget` | kernel/src/lua/alloc.rs:34-80 | Over every run with truthful old sizes, interleaved with other users of the heap, `used` is the sum of the sizes held and at most the limit. |
| `LuaAlloc.LuaStepKeepsInv` | kernel/src/lua/alloc.rs:34-80 | One call keeps that, and every pointer held is a live block of at least its size. |
| `LuaAlloc.TotalFits` | kernel/src/lua/alloc.rs:34-80 | The sizes held together are no larger than memory, so charging them never wraps, whatever the limit. |
| `LuaAlloc.FailureChangesNothing` | kernel/src/lua/alloc.rs:34-80 | A call that returns null for a non-zero size changes neither accounting nor heap. |
| `LuaAlloc.FailsIff` | kernel/src/lua/alloc.rs:34-80 | Exactly when a call for a non-zero size fails: it would exceed the limit, or the heap has no block for it. |
| `LuaAlloc.ShrinkSucceeds` | kernel/src/lua/alloc.rs:65-79 | Shrinking always succeeds, in place. |
| `LuaAlloc.GrowKeepsPrefix` | kernel/src/lua/alloc.rs:65-79 | A grown block begins with the old contents. |
| `LuaAlloc.HeavenLuaAlloc` | kernel/src/lua/alloc.rs:34-80 | The callback takes that step on heap and accounting. |
| `Virtqueues.RunConserves` | kernel/src/drivers/virtio/virtqueue.rs:166-232 | Over every interleaving of driver and device from a new queue: the descriptors stay partitioned into free, offered, with the device, and returned; every buffer added is exactly once among the offered, held, returned and polled ones, and the offered ones are the latest additions in order. |
| `Virtqueues.StepKeepsQueue` | kernel/src/drivers/virtio/virtqueue.rs:166-232 | One driver or device step keeps the partition, the rings in order, the free list threaded through the descriptors, and the 16-bit indices. |
| `Virtqueues.WrapKeepsSlotsIff` | kernel/src/drivers/virtio/virtqueue.rs:193-199 | A wrapping 16-bit index finds the right slot for every count if and only if the queue size divides 65536. |
| `Virtqueues.PowersDivide` | kernel/src/drivers/virtio/virtqueue.rs:97-126 | The sizes for which the protocol works are exactly the powers of two up to 32768. |
| `Virtqueues.PollSeesIff` | kernel/src/drivers/virtio/virtqueue.rs:207-216 | The driver finds the indices different exactly when something has been returned, and then reads the oldest of it. |
| `Virtqueues.DeviceSeesIff` | kernel/src/drivers/virtio/virtqueue.rs:190-200 | The device finds an offered buffer exactly when there is one. |
| `Virtqueues.LayoutOk` | kernel/src/drivers/virtio/virtqueue.rs:78-90 | Descriptor table, available ring and page-aligned used ring do not overlap and fit the total, as in section 2.4 of Virtio 1.0. |
| `Virtqueues.Virtqueue.constructor` | kernel/src/drivers/virtio/virtqueue.rs:97-126 | A new queue has all descriptors free, in order. |
| `Virtqueues.Virtqueue.AddBuf` | kernel/src/drivers/virtio/virtqueue.rs:166-203 | Offers the buffer at the end of the available ring in the first free descriptor, or refuses exactly when none is free. |
| `Virtqueues.Virtqueue.PollUsed` | kernel/src/drivers/virtio/virtqueue.rs:207-232 | Takes back the oldest returned buffer and frees its descriptor, or finds nothing. |
| `VirtioNet.RunReceivesInOrder` | kernel/src/drivers/virtio/net.rs:181-240 | Over every run the frames received are the frames the device delivered, in order and unaltered, runts dropped, up to those still waiting. |
| `VirtioNet.RunSendsInOrder` | kernel/src/drivers/virtio/net.rs:181-217 | Over every run the buffers the device has read to send, followed by those still offered to it, are ten zero bytes and the frame for each frame sent, in order and unaltered. |
| `VirtioNet.StepKeepsNic` | kernel/src/drivers/virtio/net.rs:181-240 | Every step keeps: each receive descriptor in flight d points at `rx_buffers[d]`, each transmit descriptor the device may still read has its buffer alive, and buffers are distinct. |
| `VirtioNet.PolledIsNext` | kernel/src/drivers/virtio/net.rs:221-240 | The descriptor just polled is the next one handed out, which is why a re-posted buffer keeps its index, also after runts. |
| `VirtioNet.ReceiveKeepsInv` | kernel/src/drivers/virtio/net.rs:221-240 | Receiving keeps that, also for runt frames. |
| `VirtioNet.TransmitKeepsInv` | kernel/src/drivers/virtio/net.rs:181-217 | Transmitting keeps that and leaves the receive side alone. |
| `VirtioNet.VirtioNet.FillRxPool` | kernel/src/drivers/virtio/net.rs:158-168 | Posts the 64 buffers of the pool, as many as fit the queue, and establishes the invariant; it fails exactly when a DMA buffer is denied. |
| `VirtioNet.VirtioNet.ReclaimTxBuffers` | kernel/src/drivers/virtio/net.rs:171-178 | Drops exactly the buffers of the returned transmit descriptors. |
| `VirtioNet.VirtioNet.Transmit` | kernel/src/drivers/virtio/net.rs:181-217 | Reclaims, then queues ten zero bytes and the frame in a buffer of its own that the device may only read; refuses for want of memory exactly when a buffer is denied. |
| `VirtioNet.VirtioNet.Receive` | kernel/src/drivers/virtio/net.rs:221-240 | Takes the oldest completion: the frame without its header, its buffer posted again, or nothing. |
| `VirtioNet.RuntsDrainThePool` | kernel/src/drivers/virtio/net.rs:221-240 | Over every run the receive descriptors in flight are those at the start less the runts polled. |
| `VirtioNet.DrainedReceivesNothing` | kernel/src/drivers/virtio/net.rs:221-240 | When as many runts have been polled as buffers were posted, nothing is ever received again. |
| `NvmeQueues.RunIsExact` | kernel/src/drivers/nvme/queue.rs:212-246 | Over any number of laps: the polls return exactly the statuses posted, once each and in order, and the device fetches exactly the commands submitted, in order. |
| `NvmeQueues.CommandsArrive` | kernel/src/drivers/nvme/queue.rs:212-225 | The device fetches the commands in the order they were issued, each with its opcode, flags and body as issued and the next 16-bit identifier. |
| `NvmeQueues.PollIsExact` | kernel/src/drivers/nvme/queue.rs:229-246 | A poll finds nothing exactly when everything posted has been consumed, and otherwise returns the oldest unconsumed status. |
| `NvmeQueues.PostKeepsInv` | kernel/src/drivers/nvme/queue.rs:229-246 | Posting into a queue with room, with the phase of the lap, keeps the phase discipline of section 4.6 of NVM Express 1.4. |
| `NvmeQueues.EachCommandGetsItsOwn` | kernel/src/drivers/nvme/mod.rs:267-367 | In runs without time-outs every synchronous command takes the completion that answers it and carries its identifier. |
| `NvmeQueues.OwnAnswersIffIdle` | kernel/src/drivers/nvme/mod.rs:220-237 | From any reachable state of a driver that is not waiting, with time-outs behind it or not: every command from now on is given its own completion, whatever the device does, if and only if every command was fetched and answered and every answer consumed. |
| `NvmeQueues.RunKeepsDriver` | kernel/src/drivers/nvme/mod.rs:220-237 | In every reachable state each completion answers a command that was fetched and carries its identifier. |
| `NvmeQueues.TimeoutMixesAnswers` | kernel/src/drivers/nvme/mod.rs:20-34 | After a time-out, for any two commands, a run in which the second is given the answer to the first. |
| `NvmeQueues.DecodeIsRightIff` | kernel/src/drivers/nvme/queue.rs:142-155 | The decoding of DW3 agrees with the layout of the standard if and only if identifier, status and phase happen to coincide. |
| `NvmeQueues.CodeSeesIff` | kernel/src/drivers/nvme/queue.rs:142-155 | What that reading makes of a ring filled by a conforming device: a posted completion is seen exactly when the parity of its identifier is the phase of the lap, and with nothing waiting a completion of the last lap is seen again exactly when its parity is. |
| `NvmeQueues.FirstAnswerUnseen` | kernel/src/drivers/nvme/queue.rs:142-155 | The answer to the very first command is never seen. |
| `NvmeQueues.RunRemembers` | kernel/src/drivers/nvme/queue.rs:172-246 | In every run the ring still holds the completions of the last lap. |
| `NvmeQueues.QueuePair.Submit` | kernel/src/drivers/nvme/queue.rs:212-225 | Places the command at the tail with the next 16-bit identifier in its upper half. |
| `NvmeQueues.QueuePair.PollCompletion` | kernel/src/drivers/nvme/queue.rs:229-246 | Takes the poll step on ring, head and phase. |
| `Utf8.DecodeEncoded` | kernel/src/api/json.rs:195-218 | Every text is what its UTF-8 encoding decodes to. |
| `Utf8.EncodeDecoded` | kernel/src/api/json.rs:195-218 | Only encodings of texts decode. |
| `JsonSpelling.PieceParses` | kernel/src/api/json.rs:162-222 | Each spelling of a character, as itself, by a short escape (the solidus too), by one code unit or by its UTF-16 surrogate pair, with digits in either case, is read as that character in one step (section 7 of RFC 8259). |
| `JsonSpelling.PartsParse` | kernel/src/api/json.rs:162-222 | A string in any mixture of spellings is read as its text, a low surrogate alone and bytes that are no UTF-8 standing for nothing. |
| `JsonSpelling.HighNeedsLow` | kernel/src/api/json.rs:181-194 | A high surrogate is read if and only if an escaped low one follows. |
| `JsonSpelling.LowAloneIsDropped` | kernel/src/api/json.rs:181-194 | A low surrogate by itself is accepted and stands for no character. |
| `JsonSpelling.OtherEscapesFail` | kernel/src/api/json.rs:170-200 | Apart from `u`, the letters accepted after a reverse solidus are exactly those of the short escapes. |
| `JsonSpelling.UnescapeSpelled` | kernel/src/api/mod.rs:996-1036 | The lax inverse reads every spelling of a character, except that it drops both halves of a surrogate pair. |
| `Json.ParseDocument` | kernel/src/api/json.rs:74-82 | The parser returns the value, or the error, of the specification for every input. |
| `Json.Parser.Value` | kernel/src/api/json.rs:147-160 | Reads one value and leaves what follows, as specified; terminates on the input left. |
| `Json.Parser.ObjectValue` | kernel/src/api/json.rs:291-318 | The same for objects. |
| `Json.Parser.ArrayValue` | kernel/src/api/json.rs:320-343 | The same for arrays. |
| `Json.Parser.String` | kernel/src/api/json.rs:162-222 | The same for strings: escapes, surrogate pairs, and longer UTF-8 sequences passed through or dropped when malformed. |
| `Json.Parser.Hex4` | kernel/src/api/json.rs:224-237 | The same for four hexadecimal digits. |
| `Json.Parser.NumberValue` | kernel/src/api/json.rs:239-289 | The same for numbers, kept as their lexeme. |
| `Json.Parser.LiteralValue` | kernel/src/api/json.rs:345-369 | The same for `true`, `false` and `null`. |
| `JsonLaws.NumberAcceptedIff` | kernel/src/api/json.rs:239-289 | The lexemes read as numbers are exactly those of the grammar in section 6 of RFC 8259. |
| `JsonLaws.ValueMore` | kernel/src/api/json.rs:147-160 | The splice law: a value that ends before more input, numbers cut off at the end aside, is read the same with any continuation. |
| `JsonLaws.EmbeddedParses` | kernel/src/api/json.rs:147-160 | Text that is a document on its own is read as the same value in front of a comma, a closing bracket or the end. |
| `JsonLaws.DocParses` | kernel/src/api/json.rs:147-343 | Every printed document, with strings and keys in any mixture of spellings and white space anywhere, is read back, in front of anything that cannot continue a number. |
| `JsonLaws.PrintedParses` | kernel/src/api/json.rs:74-82 | Parsing a printed document, in any spelling and spacing and with texts embedded, gives its value and nothing is left. |
| `JsonLaws.TreeRoundTrip` | kernel/src/api/json.rs:74-82 | Parsing any printed JSON tree returns that tree. |
| `JsonGrammar.AcceptedIffWritten` | kernel/src/api/json.rs:74-369 | The parser accepts an input as a value if and only if the input writes that value by the grammar of RFC 8259: nothing else, no trailing comma or data, and leniency only in strings, for control characters, lone low surrogates and bytes that are no UTF-8. |
| `JsonGrammar.RejectedIff` | kernel/src/api/json.rs:74-82 | Every other input is an error. |
| `JsonGrammar.ValueIsPrinted` | kernel/src/api/json.rs:147-160 | Whatever is read as a value is white space and a printed document, followed by what is left. |
| `JsonText.EscapeJson` | kernel/src/api/mod.rs:966-987 | The loop computes the escaping that the laws are about. |
| `JsonText.UnescapeJson` | kernel/src/api/mod.rs:996-1036 | The loop computes the lax inverse that the laws are about, malformed escapes included. |
| `JsonText.UnescapeEscaped` | kernel/src/api/mod.rs:966-1036 | Unescaping an escaped string gives the string, for every Unicode text. |
| `JsonText.EscapedCharsParse` | kernel/src/api/json.rs:162-222 | The parser reads an escaped text through the UTF-8 byte path back to the text. |
| `JsonText.QuotedParses` | kernel/src/api/json.rs:162-222 | A quoted escaped text parses back to the text, whatever follows. |
| `JsonText.EscapedCharParses` | kernel/src/api/mod.rs:966-994 | Each escaped character is read as that character in one step. |
| `ApiRequest.BodySaysWhatWasMeant` | kernel/src/api/mod.rs:168-278 | For all system prompts, messages and tool definitions whose embedded JSON parses: the body parses and yields model, system prompt, and every role, text, tool id, tool name, tool input and tool result in order. |
| `ApiRequest.BodyPrinted` | kernel/src/api/mod.rs:237-261 | The bytes pushed together by the builder are the printed form of the intended document. |
| `ApiRequest.MessagePrinted` | kernel/src/api/mod.rs:182-237 | The same for one message. |
| `ApiRequest.BlockPrinted` | kernel/src/api/mod.rs:197-233 | The same for one content block. |
| `ApiRequest.BlockIsSaid` | kernel/src/api/mod.rs:197-233 | Looking up the fields of a printed block gives back what was put in. |
| `ApiRequest.BuildHttpRequestMulti` | kernel/src/api/mod.rs:168-278 | The builder refuses exactly a model or key with a line break, and otherwise returns the request head with the length of the body, then the body. |
| `HttpLaws.RequestReads` | kernel/src/api/mod.rs:263-277 | The head of a request whose key has no line break ends at its first blank line, the body follows, and reading the head gives the request line, seven headers, the key, and the decimal length of the body. |
| `Http.FindHeaderEnd` | kernel/src/api/http.rs:101-108 | The position of the first blank line, or there is none. |
| `Http.HeaderEndMore` | kernel/src/api/http.rs:101-108 | More data does not move it. |
| `Http.ParseMore` | kernel/src/api/http.rs:31-62 | Once a head can be judged, more data does not change status, headers or body start. |
| `HttpLaws.HeadReads` | kernel/src/api/http.rs:31-62 | Every head as a server writes it, with any version, status below 65536, reason, and headers with white space around their values, is read as its status, its headers in order with names in lower case, and the position of the body. |
| `HttpLaws.RetryReads` | kernel/src/api/http.rs:90-98 | The seconds to wait are those of the first header named retry-after in letters of either case, if its value is a number of 64 bits; a missing header or another value gives none. |
| `HttpLaws.UnsignedReads` | kernel/src/api/http.rs:110-118 | A decimal numeral is read as its number if it fits, and refused otherwise. |
| `HttpLaws.EndIsFound` | kernel/src/api/http.rs:101-108 | The blank line that ends a section of lines is found where it was written. |
| `StreamingReply.ReplyIsUnderstood` | kernel/src/api/mod.rs:504-613 | Every reply sent as events, whatever their JSON looks like, in any of the framings accepted, with any other events in between and anything after it, ends with exactly its pieces of text as tokens, their joined text, its tool calls in order with identifier, name and joined input, and its stop reason. |
| `StreamingReply.PrintedReplyIsUnderstood` | kernel/src/api/mod.rs:504-613 | In particular every reply printed event by event behind a 200 head. |
| `StreamingReply.CutReplyIsUnderstood` | kernel/src/api/mod.rs:504-631 | When the connection ends within a reply, the text so far counts and an unfinished call does not; with neither text nor a call the reply is empty. |
| `StreamingReply.OtherStatusFails` | kernel/src/api/mod.rs:511-521 | A head with any status but 200 and 201 ends in an error with that status and its seconds to wait. |
| `StreamingReply.PrintedEventOk` | kernel/src/api/mod.rs:524-610 | Every printed event is one line of JSON text that says that event. |
| `StreamingReply.ReadsAreJoined` | kernel/src/api/mod.rs:504-510 | The bytes received are those of the reads up to the end of the connection, in order. |
| `StreamingReply.CrLfEndsNothing` | kernel/src/api/mod.rs:884-891 | Where every line ends with CR LF no event is ever found. |
| `Streaming.SplitDoesNotMatter` | kernel/src/api/mod.rs:504-618 | Tokens, text, tool calls, stop reason, HTTP error and leftover buffer depend only on the bytes received, not on how reads split them. |
| `Streaming.FeedTwice` | kernel/src/api/mod.rs:504-618 | Two reads do what one read of both pieces does. |
| `Streaming.EventsConsume` | kernel/src/api/mod.rs:523-613 | Each event handled takes at least two bytes from the buffer, so the event loop ends. |
| `Streaming.DrainMore` | kernel/src/api/mod.rs:523-613 | Handling the complete events now and the rest with later data is handling them all at once. |
| `Streaming.EventEndMore` | kernel/src/api/mod.rs:884-891 | More data does not move the end of the first event. |
| `Streaming.FindSseEventEnd` | kernel/src/api/mod.rs:884-891 | The end of the first event, or there is none. |
| `Streaming.ReceiveReply` | kernel/src/api/mod.rs:500-631 | The receive loop returns what the stream of bytes up to the end of the connection means. |
| `Der.SpkiExtracted` | kernel/src/crypto/der.rs:113-181 | From every encoded certificate, version present or absent, exactly the SubjectPublicKeyInfo element is extracted (section 4.1 of RFC 5280). |
| `Der.SpkiIsElement` | kernel/src/crypto/der.rs:113-181 | On any input a result is a contiguous part of it, a SEQUENCE whose header spans it exactly. |
| `Der.TlvRoundTrip` | kernel/src/crypto/der.rs:52-70 | An encoded element is read back, whatever follows. |
| `Der.LengthRoundTrip` | kernel/src/crypto/der.rs:73-102 | Every length below 2^32 is read back from its shortest definite form (section 8.1.3 of X.690). |
| `Der.ParseLength` | kernel/src/crypto/der.rs:73-102 | The accumulating loop computes the big-endian length, with all its error cases. |
| `Der.ParseTlv` | kernel/src/crypto/der.rs:52-70 | The element at the start, or the error. |
| `Der.ExtractSpki` | kernel/src/crypto/der.rs:113-181 | The walk returns what the specification says for every input. |

## Left out

- VFS calls are atomic steps: the locks that serialise them, their order and blocking are not modelled.
- One open handle a file, and no delete while a file is open: the handle caches the extent, and the code relies on it.
- Reads and writes of zero bytes: the block count then underflows in the code, so `Read` and `Write` demand at least one byte.
- Block size: at least 4080 bytes and a multiple of 8, as formatting and the word-wise bitmap demand.
- Wrap-around of 64-bit sums of file offsets and block numbers: the disk is smaller than 2^64 bytes, and offsets are unbounded.
- Bytes of a gap that a write past the end leaves are unspecified, because grown blocks are not zeroed.
- Superblock and table entries are laid out by encode and decode functions over little-endian fields, not by pointer casts.
- Crash safety while a sync is under way: it writes bitmap and table one after the other, not atomically.
- The unit of loss in a power failure is the byte, which includes losing or tearing any subset of sectors or writes; `VfsPowerLoss.WriteLossSafeIff` alone is about losing whole writes.
- `RamDisk` refuses nothing in the original; here its commands may be refused, as the NVMe driver's are, so that the error exits of its callers are reached.
- BlockAlloc.LayoutFits: disks of fewer than two blocks, for which the code's subtraction underflows.
- Transfers of up to 65535 blocks are taken as possible: the limit of the PRP list is not modelled.
- Shared-memory regions (`shm_map`, `shm_unmap`, the barrier) and lock requests before the first mapping; the shared counter does not overflow.
- The CMOS clock chip: date and time are parameters of the Julian-day arithmetic.
- `file_size`, sleep, randomness and the FFI layers.
- Heap addresses are physical and count 8-byte words; the offset of the kernel's mapping, alignment above 8 and the lazy initialisation flag are not modelled. Bytes of a word that the header does not use keep their value.
- SlabHeap.SlabAllocator.Realloc: the copy is made word by word, all usable sizes being multiples of 8.
- Virtqueue memory is three arrays, not bytes at offsets, and memory fences are steps' boundaries; `Virtqueues.LayoutOk` covers the offsets alone.
- Virtqueues.RunConserves: that the device returns what it takes is no obligation of the standard within bounded time, so a buffer is proved to be polled at most once, and exactly once when the device has returned it and the driver has polled to the end.
- DMA buffers are fresh addresses; that they are freed when dropped, and device registers, notifications, PCI discovery and initialisation are not modelled.
- NVMe doorbells, PRP entries and the identify data; commands are records of opcode words and identifier.
- Numbers stay lexemes: `parse_f64` is not modelled.
- Recursion depth: the parser is proved to terminate, the kernel stack is not bounded.
- The two text-only receive loops, `finish_response` and `extract_content_delta_legacy`; the loop with tool calls is the one modelled.
- ApiRequest.BuildHttpRequestMulti: the text of the tool definitions is a parameter.
- HttpLaws.RequestReads: a key with white space at its ends would reach a server without it; the headers are read for other keys.
- Retries and their delays, TLS and TCP: a connection is the sequence of results that its reads give.
- Der.LengthRoundTrip: the code also accepts lengths that are not in shortest form; they are covered by `Der.ParseLength` and `Der.SpkiIsElement`.
- Styx, DNS, paging, interrupts, serial line, agent, shell and Lua bindings.
