/** Losing power in the middle of a run: which runs after a sync leave every recorded file intact. */
module VfsPowerLoss {
  import opened Bits
  import opened Bytes
  import opened Runs
  import opened RamDisks
  import opened BlockAlloc
  import opened FileTables
  import opened VfsModel
  import opened VfsInvariant
  import opened VfsRefinement
  import opened VfsDurability

  // ---- Byte by byte ----

  /** Byte `p` of the disk belongs to a file as the table entry records it. */
  ghost predicate Recorded(g: Superblock, table: seq<FileEntry>, p: nat) {
    exists i :: 0 <= i < |table| && RecordedIn(g, table[i], p)
  }

  ghost predicate RecordedIn(g: Superblock, e: FileEntry, p: nat) {
    e.InUse() && At(g, e.startBlock) <= p < At(g, e.startBlock) + e.byteLength
  }

  /** Byte `p` is durable with the value it had in `s`. */
  ghost predicate Intact(s: Store, ops: seq<DeviceOp>, p: nat)
    requires FitsDisk(ops, |s.initial|) && |s.disk| == |s.initial|
  {
    p < |s.disk| ==> !Unflushed(ops, p) && Visible(s.initial, ops)[p] == s.disk[p]
  }

  lemma {:induction false} FlushedIsDurable(initial: seq<byte>, ops: seq<DeviceOp>, p: nat)
    requires FitsDisk(ops, |initial|) && p < |initial| && !Unflushed(ops, p)
    ensures Durable(initial, ops)[p] == Visible(initial, ops)[p]
  {
    if ops != [] && ops[|ops| - 1].Wrote? {
      FlushedIsDurable(initial, ops[..|ops| - 1], p);
    }
  }

  /** Exactly when a power loss cannot hurt, for any operations on the data region after a sync: every recorded
      byte is durable with its recorded value. */
  lemma CrashSafeIff(g: Superblock, s: Sys, ops: seq<DeviceOp>)
    requires Synced(g, s) && FitsDisk(ops, |s.store.initial|) && WroteOnly(s.store.trace, ops, At(g, 0), |s.store.disk|)
    ensures CrashSafe(g, s.store, ops) <==> forall p: nat :: Recorded(g, s.store.table, p) ==> Intact(s.store, ops, p)
  {
    hide Inv, StoreOk, At, Visible, FitsDisk, CrashSafe, Unflushed, WroteOnly;
    StoreFacts(g, s);
    if forall p: nat :: Recorded(g, s.store.table, p) ==> Intact(s.store, ops, p) {
      IntactIsSafe(g, s, ops);
    }
    forall p: nat | Recorded(g, s.store.table, p) && !Intact(s.store, ops, p)
      ensures !CrashSafe(g, s.store, ops)
    {
      var i :| 0 <= i < |s.store.table| && RecordedIn(g, s.store.table[i], p);
      if Unflushed(ops, p) {
        TornByte(g, s.store, ops, i, p);
      } else {
        ChangedByte(g, s.store, ops, i, p);
      }
    }
  }

  lemma StoreFacts(g: Superblock, s: Sys)
    requires Synced(g, s)
    ensures DeviceOk(s.store) && |s.store.table| == MAX_ENTRIES && |s.store.disk| == DiskSize(g) && StoreOk(g, s.store)
    ensures CleanOk(g, s.store) && !s.store.bitmapDirty && !s.store.tableDirty
  {
  }

  lemma IntactIsSafe(g: Superblock, s: Sys, ops: seq<DeviceOp>)
    requires Synced(g, s) && FitsDisk(ops, |s.store.initial|) && WroteOnly(s.store.trace, ops, At(g, 0), |s.store.disk|)
    requires |s.store.disk| == |s.store.initial|
    requires forall p: nat :: Recorded(g, s.store.table, p) ==> Intact(s.store, ops, p)
    ensures CrashSafe(g, s.store, ops)
  {
    StoreFacts(g, s);
    hide Inv, StoreOk, At, Visible, FitsDisk, Unflushed, WroteOnly, MetadataOnDisk, CleanOk;
    forall image | CrashImage(s.store.initial, ops, image)
      ensures KeepsFiles(g, s.store, image)
    {
      forall p: nat | p < |image| && !(At(g, 0) <= p < |s.store.disk|)
        ensures image[p] == s.store.disk[p]
      {
        CrashOutsideUnchanged(s.store.initial, s.store.trace, ops, At(g, 0), |s.store.disk|, p);
      }
      MetadataSurvives(g, s.store, image, At(g, 0), |s.store.disk|);
      forall i | 0 <= i < |s.store.table| && s.store.table[i].InUse()
        ensures RecordedBytesKept(g, s.store.table, s.store.disk, image, i)
      {
        forall p: nat | RecordedIn(g, s.store.table[i], p) && p < |image|
          ensures image[p] == s.store.disk[p]
        {
          assert Recorded(g, s.store.table, p);
          assert Intact(s.store, ops, p);
          FlushedIsDurable(s.store.initial, ops, p);
        }
      }
    }
  }

  /** A recorded byte that another value has replaced is lost even without a power loss. */
  lemma ChangedByte(g: Superblock, s: Store, ops: seq<DeviceOp>, i: nat, p: nat)
    requires DeviceOk(s) && FitsDisk(ops, |s.initial|) && p < |s.disk| && Visible(s.initial, ops)[p] != s.disk[p]
    requires i < |s.table| && RecordedIn(g, s.table[i], p)
    ensures !CrashSafe(g, s, ops)
  {
    var image := Visible(s.initial, ops);
    forall k: nat | k < |image| && !Unflushed(ops, k)
      ensures image[k] == Durable(s.initial, ops)[k]
    {
      FlushedIsDurable(s.initial, ops, k);
    }
    assert CrashImage(s.initial, ops, image);
    assert !RecordedBytesKept(g, s.table, s.disk, image, i);
  }

  // ---- Where a write lands ----

  /** The data blocks that a write may touch: those it addresses, or the lowest free run when the file must grow. */
  ghost predicate Lands(g: Superblock, s: Sys, slot: nat, data: seq<byte>, offset: nat, b: nat, n: nat) {
    && slot in s.open && slot < |s.store.table| && g.blockSize > 0 && |data| > 0
    && var first, end := FirstBlock(g, offset), BlocksEnd(g, offset, |data|);
    if end <= s.open[slot].blockCount then b == s.store.table[slot].startBlock + first && n == end - first
    else n == end && LowestRun(Members(s.store.words), g.dataBlocks, n, 1, b)
  }

  /** The write has written only to the blocks `b..b + n`, where it lands. */
  ghost predicate LandedIn(g: Superblock, s: Sys, slot: nat, data: seq<byte>, offset: nat, s': Sys, b: nat, n: nat) {
    && Lands(g, s, slot, data, offset, b, n)
    && WroteOnly(s.store.trace, s'.store.trace, At(g, b), At(g, b + n))
    && At(g, b + n) <= |s.store.disk|
  }

  /** A write, however it ends, writes nothing or only where it lands. */
  lemma WriteLands(g: Superblock, s: Sys, slot: nat, data: seq<byte>, offset: nat, rc: Code, s': Sys) returns (b: nat, n: nat)
    requires Inv(g, s) && SysStep(g, s, Write(slot, data, offset, rc), s')
    ensures s'.store.initial == s.store.initial && DeviceOk(s'.store)
    ensures s'.store.trace != s.store.trace ==> LandedIn(g, s, slot, data, offset, s', b, n)
  {
    StepKeepsInv(g, s, Write(slot, data, offset, rc), s');
    WriteParts(g, s, slot, data, offset, rc, s');
    hide Inv, LandedIn, FilesOk, OverwriteStep, SysStep, BlocksEnd, DeviceOk;
    if BlocksEnd(g, offset, |data|) > s.open[slot].blockCount {
      b, n := GrowthLands(g, s, slot, data, offset, rc, s');
    } else {
      b, n := OverwriteLands(g, s, slot, data, offset, rc, s');
    }
  }

  lemma GrowthLands(g: Superblock, s: Sys, slot: nat, data: seq<byte>, offset: nat, rc: Code, s': Sys) returns (b: nat, n: nat)
    requires Inv(g, s) && SysStep(g, s, Write(slot, data, offset, rc), s')
    requires slot in s.open && slot < |s.store.table| && g.blockSize > 0 && |data| > 0
    requires BlocksEnd(g, offset, |data|) > s.open[slot].blockCount
    ensures s'.store.trace != s.store.trace ==> LandedIn(g, s, slot, data, offset, s', b, n)
  {
    hide *;
    b, n := GrowthWritesFreeRun(g, s, slot, data, offset, rc, s');
    if s'.store.trace != s.store.trace {
      RunInDisk(g, s, b, n);
      IsLanding(g, s, slot, data, offset, s', b, n);
    }
  }

  lemma IsLanding(g: Superblock, s: Sys, slot: nat, data: seq<byte>, offset: nat, s': Sys, b: nat, n: nat)
    requires slot in s.open && slot < |s.store.table| && g.blockSize > 0 && |data| > 0
    requires n == BlocksEnd(g, offset, |data|) > s.open[slot].blockCount
    requires LowestRun(Members(s.store.words), g.dataBlocks, n, 1, b)
    requires WroteOnly(s.store.trace, s'.store.trace, At(g, b), At(g, b + n)) && At(g, b + n) <= |s.store.disk|
    ensures LandedIn(g, s, slot, data, offset, s', b, n)
  {
    hide LowestRun, WroteOnly, At, Members, BlockOf;
  }

  lemma WriteParts(g: Superblock, s: Sys, slot: nat, data: seq<byte>, offset: nat, rc: Code, s': Sys)
    requires Inv(g, s) && Inv(g, s') && SysStep(g, s, Write(slot, data, offset, rc), s')
    ensures FilesOk(g, s) && slot in s.open && slot in s'.open && |data| > 0 && g.blockSize > 0 && slot < |s.store.table|
    ensures s'.store.initial == s.store.initial && DeviceOk(s'.store)
    ensures BlocksEnd(g, offset, |data|) <= s.open[slot].blockCount ==>
              OverwriteStep(g, s.store, s'.store, s.open[slot], s'.open[slot], data, offset, rc)
  {
    hide Blocks, BlockOf, Visible, FitsDisk, Apart, Owned, CleanOk, Members, Range, LowestRun, OverwriteStep;
    if BlocksEnd(g, offset, |data|) > s.open[slot].blockCount {
      var b, n := GrowthWritesFreeRun(g, s, slot, data, offset, rc, s');
    } else {
      assert s'.store.initial == s.store.initial by {
        var b, n := OverwriteLands(g, s, slot, data, offset, rc, s');
      }
    }
  }

  lemma OverwriteLands(g: Superblock, s: Sys, slot: nat, data: seq<byte>, offset: nat, rc: Code, s': Sys) returns (b: nat, n: nat)
    requires FilesOk(g, s) && slot in s.open && slot in s'.open && |data| > 0
    requires BlocksEnd(g, offset, |data|) <= s.open[slot].blockCount
    requires OverwriteStep(g, s.store, s'.store, s.open[slot], s'.open[slot], data, offset, rc)
    ensures s'.store.initial == s.store.initial && DeviceOk(s'.store) && LandedIn(g, s, slot, data, offset, s', b, n)
  {
    hide Blocks, BlockOf, FirstBlock, BlocksEnd, At, Visible, FitsDisk, Apart, WroteOnly, Members, Range, LowestRun, OverwriteStep;
    var lo, hi := OverwriteFrame(g, s.store, s'.store, s.open[slot], s'.open[slot], data, offset, rc);
    var e, first, end := s.store.table[slot], FirstBlock(g, offset), BlocksEnd(g, offset, |data|);
    TransferBlocks(g, offset, |data|);
    b, n := e.startBlock + first, end - first;
    AtAdd(g, e.startBlock, first);
    AtAdd(g, e.startBlock, end);
    assert b + n == e.startBlock + end;
    ExtentInDisk(g, e, 0);
  }

  lemma RunInDisk(g: Superblock, s: Sys, b: nat, n: nat)
    requires Inv(g, s) && LowestRun(Members(s.store.words), g.dataBlocks, n, 1, b)
    ensures At(g, b + n) <= |s.store.disk|
  {
    DiskRegions(g);
    AtMono(g, b + n, g.dataBlocks);
  }

  /** Every event but a sync writes at most where a write lands. */
  lemma OthersWriteNothing(g: Superblock, s: Sys, ev: Event, s': Sys)
    requires SysStep(g, s, ev, s') && !ev.Write? && !ev.Sync?
    ensures s'.store.initial == s.store.initial && s'.store.trace == s.store.trace && s'.store.disk == s.store.disk
  {
    hide Members, Range, LowestRun, NoRun, Blocks, BlocksKept, BitmapBecame, Created, FindFrom;
  }

  // ---- Runs between two syncs ----

  /** No recorded byte of the table lies in the blocks. */
  ghost predicate Spares(g: Superblock, table: seq<FileEntry>, b: nat, n: nat) {
    forall i :: 0 <= i < |table| && table[i].InUse() ==> Outside(g, table[i], At(g, b), At(g, b + n))
  }

  /** The event is no sync, and if it is a write it lands off the recorded bytes of `table`. */
  ghost predicate SparingEvent(g: Superblock, table: seq<FileEntry>, s: Sys, ev: Event) {
    && !ev.Sync?
    && (ev.Write? ==> forall b, n :: Lands(g, s, ev.slot, ev.data, ev.offset, b, n) ==> Spares(g, table, b, n))
  }

  /** What a run since the sync `s` has kept. */
  ghost predicate Since(g: Superblock, s: Sys, t: Sys) {
    && Inv(g, t) && t.store.initial == s.store.initial && FitsDisk(t.store.trace, |s.store.initial|)
    && |s.store.disk| == |s.store.initial|
    && WroteOnly(s.store.trace, t.store.trace, At(g, 0), |s.store.disk|)
    && forall p: nat :: Recorded(g, s.store.table, p) ==> Intact(s.store, t.store.trace, p)
  }

  /** Any number of operations after a sync, whichever way each ends, can be cut off by a power loss without
      losing a recorded file, as long as no write lands on the recorded bytes. */
  lemma {:induction false} SparingRunIsCrashSafe(g: Superblock, states: seq<Sys>, events: seq<Event>, k: nat)
    requires Run(g, states, events) && Synced(g, states[0]) && k <= |events|
    requires forall i :: 0 <= i < |events| ==> SparingEvent(g, states[0].store.table, states[i], events[i])
    ensures Since(g, states[0], states[k]) && CrashSafe(g, states[0].store, states[k].store.trace)
  {
    hide SparingEvent, Since, SysStep, CrashSafe;
    if k == 0 {
      SinceSync(g, states[0]);
    } else {
      SparingRunIsCrashSafe(g, states, events, k - 1);
      SinceStep(g, states[0], states[k - 1], events[k - 1], states[k]);
    }
    SinceIsSafe(g, states[0], states[k]);
  }

  lemma SinceSync(g: Superblock, s: Sys)
    requires Synced(g, s)
    ensures Since(g, s, s)
  {
    hide At;
  }

  lemma SinceIsSafe(g: Superblock, s: Sys, t: Sys)
    requires Synced(g, s) && Since(g, s, t)
    ensures CrashSafe(g, s.store, t.store.trace)
  {
    hide CrashSafe, Inv, At, Synced;
    IntactIsSafe(g, s, t.store.trace);
  }

  lemma SinceStep(g: Superblock, s: Sys, t: Sys, ev: Event, t': Sys)
    requires Synced(g, s) && Since(g, s, t) && SysStep(g, t, ev, t') && SparingEvent(g, s.store.table, t, ev)
    ensures Since(g, s, t')
  {
    StepKeepsInv(g, t, ev, t');
    hide Inv, SysStep, At, Synced, Intact, Recorded, WroteOnly, FitsDisk, Lands, Spares;
    InvDisk(g, t);
    InvDisk(g, t');
    if ev.Write? {
      var b, n := WriteLands(g, t, ev.slot, ev.data, ev.offset, ev.rc, t');
      if t'.store.trace != t.store.trace {
        assert Spares(g, s.store.table, b, n);
        AtMono(g, 0, b);
        WroteOnlyWidens(t.store.trace, t'.store.trace, At(g, b), At(g, b + n), At(g, 0), |s.store.disk|);
        WroteOnlyTransitive(s.store.trace, t.store.trace, t'.store.trace, At(g, 0), |s.store.disk|);
        forall p: nat | Recorded(g, s.store.table, p)
          ensures Intact(s.store, t'.store.trace, p)
        {
          SparedStaysIntact(g, s.store, t.store.trace, t'.store.trace, b, n, p);
        }
      }
    } else {
      OthersWriteNothing(g, t, ev, t');
    }
  }

  lemma InvDisk(g: Superblock, s: Sys)
    requires Inv(g, s)
    ensures DeviceOk(s.store) && FitsDisk(s.store.trace, |s.store.initial|) && |s.store.disk| == |s.store.initial| == DiskSize(g)
    ensures s.store.disk == Visible(s.store.initial, s.store.trace) && FilesOk(g, s)
  {
  }

  lemma SparedStaysIntact(g: Superblock, s: Store, ops: seq<DeviceOp>, ops': seq<DeviceOp>, b: nat, n: nat, p: nat)
    requires FitsDisk(ops', |s.initial|) && FitsDisk(ops, |s.initial|) && |s.disk| == |s.initial|
    requires WroteOnly(ops, ops', At(g, b), At(g, b + n)) && Spares(g, s.table, b, n)
    requires Recorded(g, s.table, p) && Intact(s, ops, p)
    ensures Intact(s, ops', p)
  {
    hide At, Visible, FitsDisk, WroteOnly, Unflushed;
    var i :| 0 <= i < |s.table| && RecordedIn(g, s.table[i], p);
    assert Outside(g, s.table[i], At(g, b), At(g, b + n));
    if p < |s.disk| {
      OutsideUnchanged(s.initial, ops, ops', At(g, b), At(g, b + n), p);
      OutsideStaysFlushed(ops, ops', At(g, b), At(g, b + n), p);
    }
  }

  lemma {:induction false} OutsideStaysFlushed(ops: seq<DeviceOp>, ops': seq<DeviceOp>, lo: nat, hi: nat, p: nat)
    requires WroteOnly(ops, ops', lo, hi) && !(lo <= p < hi) && !Unflushed(ops, p)
    ensures !Unflushed(ops', p)
    decreases |ops'|
  {
    if |ops'| == |ops| {
      assert ops' == ops;
    } else {
      var shorter := ops'[..|ops'| - 1];
      assert ops <= shorter;
      OutsideStaysFlushed(ops, shorter, lo, hi, p);
      assert OpWithin(ops'[|ops'| - 1], lo, hi);
    }
  }

  /** A successful write whose data covers a block with a recorded byte ends the safety, at whatever point of a
      run it comes. */
  lemma WriteOnRecordedIsNotSafe(g: Superblock, s: Store, t: Sys, slot: nat, data: seq<byte>, offset: nat, t': Sys, i: nat, p: nat)
    requires DeviceOk(s) && s.initial == t.store.initial && |s.disk| == DiskSize(g)
    requires Inv(g, t) && SysStep(g, t, Write(slot, data, offset, OK), t')
    requires i < |s.table| && RecordedIn(g, s.table[i], p) && slot < |t'.store.table|
    requires var at := At(g, t'.store.table[slot].startBlock);
             at + Blocks(FirstBlock(g, offset), g.blockSize) <= p < at + Blocks(BlocksEnd(g, offset, |data|), g.blockSize)
    ensures !CrashSafe(g, s, t'.store.trace)
  {
    StepKeepsInv(g, t, Write(slot, data, offset, OK), t');
    InvDisk(g, t');
    DataUnflushed(g, t, slot, data, offset, t', p);
    hide Inv, SysStep, At, Visible, FitsDisk, CrashSafe, Unflushed, Blocks;
    TornByte(g, s, t'.store.trace, i, p);
  }

  lemma DataUnflushed(g: Superblock, t: Sys, slot: nat, data: seq<byte>, offset: nat, t': Sys, p: nat)
    requires Inv(g, t) && SysStep(g, t, Write(slot, data, offset, OK), t') && slot < |t'.store.table|
    requires var at := At(g, t'.store.table[slot].startBlock);
             at + Blocks(FirstBlock(g, offset), g.blockSize) <= p < at + Blocks(BlocksEnd(g, offset, |data|), g.blockSize)
    ensures Unflushed(t'.store.trace, p) && p < DiskSize(g)
  {
    var n := BlocksEnd(g, offset, |data|);
    if n > t.open[slot].blockCount {
      hide Visible, FitsDisk, Unflushed, Members, Range, LowestRun, Apart, CleanOk, Blocks, BlockOf;
      var t1, b := GrownSystem(g, t, slot, data, offset, OK, t');
      GrowKeepsInv(g, t, slot, n, b, t1);
      OverwrittenUnflushed(g, t1, slot, data, offset, t', p);
    } else {
      OverwrittenUnflushed(g, t, slot, data, offset, t', p);
    }
  }

  lemma OverwrittenUnflushed(g: Superblock, t: Sys, slot: nat, data: seq<byte>, offset: nat, t': Sys, p: nat)
    requires Inv(g, t) && slot in t.open && slot in t'.open && slot < |t'.store.table| && g.blockSize > 0 && |data| > 0
    requires BlocksEnd(g, offset, |data|) <= t.open[slot].blockCount
    requires OverwriteStep(g, t.store, t'.store, t.open[slot], t'.open[slot], data, offset, OK)
    requires var at := At(g, t'.store.table[slot].startBlock);
             at + Blocks(FirstBlock(g, offset), g.blockSize) <= p < at + Blocks(BlocksEnd(g, offset, |data|), g.blockSize)
    ensures Unflushed(t'.store.trace, p) && p < DiskSize(g)
  {
    hide Blocks, BlockOf, FirstBlock, BlocksEnd, At, Visible, FitsDisk, Apart, CleanOk, WroteOnly, Members, Range, Unflushed, Splice, SameOutside,
         Accounted, StoreOk;
    var e := t.store.table[slot];
    OverwriteRange(g, e, t.open[slot].startLba, offset, |data|);
    ExtentInDisk(g, e, 0);
  }

  /** Two growing writes: the first frees its file's recorded extent, the second is given it. */
  lemma TwoGrowingWritesAreNotSafe(g: Superblock, s: Sys, slot: nat, data: seq<byte>, offset: nat, s1: Sys,
                                   other: nat, data': seq<byte>, offset': nat, s2: Sys)
    requires Synced(g, s) && SysStep(g, s, Write(slot, data, offset, OK), s1) && BlocksEnd(g, offset, |data|) > s.open[slot].blockCount
    requires SysStep(g, s1, Write(other, data', offset', OK), s2) && BlocksEnd(g, offset', |data'|) > s1.open[other].blockCount
    requires LowestRun(Members(s1.store.words), g.dataBlocks, BlocksEnd(g, offset', |data'|), 1, s.store.table[slot].startBlock)
    requires s.store.table[slot].byteLength > Blocks(FirstBlock(g, offset'), g.blockSize)
    ensures CrashSafe(g, s.store, s1.store.trace) && !CrashSafe(g, s.store, s2.store.trace)
  {
    GrowingWriteIsCrashSafe(g, s, slot, data, offset, OK, s1, s1.store.trace) by {
      InvDisk(g, s);
      var b, n := WriteLands(g, s, slot, data, offset, OK, s1);
    }
    StepKeepsInv(g, s, Write(slot, data, offset, OK), s1);
    InvDisk(g, s);
    var b, n := WriteLands(g, s, slot, data, offset, OK, s1);
    hide Inv, CrashSafe, At, Visible, FitsDisk, Blocks, BlockOf;
    var e := s.store.table[slot];
    MovedTo(g, s1, other, data', offset', s2, e.startBlock);
    TransferBlocks(g, offset', |data'|);
    BlocksMono(FirstBlock(g, offset') + 1, BlocksEnd(g, offset', |data'|), g.blockSize);
    BlocksAdd(FirstBlock(g, offset'), 1, g.blockSize);
    BlocksIs(1, g.blockSize);
    WriteOnRecordedIsNotSafe(g, s.store, s1, other, data', offset', s2, slot, At(g, e.startBlock) + Blocks(FirstBlock(g, offset'), g.blockSize));
  }

  /** The lowest run is one: the file moves there. */
  lemma MovedTo(g: Superblock, s: Sys, slot: nat, data: seq<byte>, offset: nat, s': Sys, b: nat)
    requires Inv(g, s) && SysStep(g, s, Write(slot, data, offset, OK), s') && BlocksEnd(g, offset, |data|) > s.open[slot].blockCount
    requires LowestRun(Members(s.store.words), g.dataBlocks, BlocksEnd(g, offset, |data|), 1, b)
    ensures slot < |s'.store.table| && s'.store.table[slot].startBlock == b
  {
    hide Visible, FitsDisk, Unflushed, Members, Range, Apart, CleanOk, Blocks, BlockOf;
    var s1, c := GrownSystem(g, s, slot, data, offset, OK, s');
    assert b <= c && c <= b;
  }

  // ---- What a client sees after the power is back ----

  /** The system that mounting an image gives. */
  function MountedSys(image: seq<byte>, words: seq<u64>, table: seq<FileEntry>, leaked: set<nat>): Sys {
    Sys(Store(image, image, [], words, table, false, false), map[], leaked)
  }

  /** When operations are crash safe, every name shows after the power loss what it would have shown after a
      restart right at the sync. */
  lemma CrashKeepsViews(g: Superblock, s: Sys, ops: seq<DeviceOp>, image: seq<byte>,
                        sb: Superblock, words: seq<u64>, freeCount: nat, table: seq<FileEntry>, name: seq<byte>)
    requires Synced(g, s) && CrashSafe(g, s.store, ops) && CrashImage(s.store.initial, ops, image)
    requires MountsAs(image, g.blockSize, sb, words, freeCount, table)
    ensures sb == g && View(g, MountedSys(image, words, table, s.leaked), name) == View(g, Restarted(s), name)
  {
    StoreFacts(g, s);
    assert KeepsFiles(g, s.store, image);
    hide MountsAs, MetadataOnDisk, CrashImage, CrashSafe, CleanOk, Visible, FitsDisk, EncodeSuperblock, At, RecordedBytesKept, Accounted, Apart, ExtentBytes;
    MountRebuilds(g, image, s.store.words, s.store.table, sb, words, freeCount, table);
    match Find(table, name) {
      case NotFound =>
      case FoundAt(i) =>
        FindFacts(table, name, i);
        ExtentInDisk(g, table[i], table[i].byteLength);
        RecordedSlice(g, table, s.store.disk, image, i);
    }
  }

  lemma RecordedSlice(g: Superblock, table: seq<FileEntry>, disk: seq<byte>, image: seq<byte>, i: nat)
    requires i < |table| && RecordedBytesKept(g, table, disk, image, i)
    requires At(g, table[i].startBlock) + table[i].byteLength <= |disk| == |image|
    ensures ExtentBytes(g, image, table[i].startBlock, table[i].byteLength) == ExtentBytes(g, disk, table[i].startBlock, table[i].byteLength)
  {
    hide At;
  }

  lemma FindFacts(table: seq<FileEntry>, name: seq<byte>, i: nat)
    requires Find(table, name) == FoundAt(i)
    ensures i < |table| && table[i].InUse()
  {
  }

  // ---- Losing whole writes ----

  /** Whatever subset of the unflushed writes is lost, mounting finds the files recorded in `s`. */
  ghost predicate LossSafe(g: Superblock, s: Store, ops: seq<DeviceOp>) {
    && FitsDisk(ops, |s.initial|)
    && forall kept: seq<bool> :: |kept| == |ops| ==> KeepsFiles(g, s, AfterLosing(s.initial, ops, kept))
  }

  lemma CrashSafeIsLossSafe(g: Superblock, s: Store, ops: seq<DeviceOp>)
    requires CrashSafe(g, s, ops)
    ensures LossSafe(g, s, ops)
  {
    hide KeepsFiles, CrashImage;
    forall kept: seq<bool> | |kept| == |ops|
      ensures KeepsFiles(g, s, AfterLosing(s.initial, ops, kept))
    {
      LostWritesGiveCrashImage(s.initial, ops, kept);
    }
  }

  /** The data agrees with what the file's recorded bytes hold. */
  ghost predicate Rewrites(g: Superblock, s: Store, e: FileEntry, data: seq<byte>, offset: nat) {
    forall i :: 0 <= i < |data| && offset + i < e.byteLength && At(g, e.startBlock) + offset + i < |s.disk| ==>
      data[i] == s.disk[At(g, e.startBlock) + offset + i]
  }

  /** Which successful writes after a sync survive the loss of any subset of what they wrote: those that grow
      the file, and those that put no new value on a recorded byte. */
  lemma WriteLossSafeIff(g: Superblock, s: Sys, slot: nat, data: seq<byte>, offset: nat, s': Sys)
    requires Synced(g, s) && SysStep(g, s, Write(slot, data, offset, OK), s')
    ensures LossSafe(g, s.store, s'.store.trace) <==>
            BlocksEnd(g, offset, |data|) > s.open[slot].blockCount || Rewrites(g, s.store, s.store.table[slot], data, offset)
  {
    StepKeepsInv(g, s, Write(slot, data, offset, OK), s');
    WriteParts(g, s, slot, data, offset, OK, s');
    if BlocksEnd(g, offset, |data|) > s.open[slot].blockCount {
      GrowingWriteIsCrashSafe(g, s, slot, data, offset, OK, s', s'.store.trace) by {
        InvDisk(g, s);
        var b, n := WriteLands(g, s, slot, data, offset, OK, s');
      }
      CrashSafeIsLossSafe(g, s.store, s'.store.trace);
    } else {
      assert Inv(g, s);
      hide *;
      if Rewrites(g, s.store, s.store.table[slot], data, offset) {
        RewriteIsLossSafe(g, s, slot, data, offset, s');
      } else {
        NewValueIsNotLossSafe(g, s, slot, data, offset, s');
      }
    }
  }

  /** A byte is what it was at the flush, or what the writes since then have put there. */
  lemma {:induction false} OldOrNew(initial: seq<byte>, synced: seq<DeviceOp>, ops: seq<DeviceOp>, kept: seq<bool>, disk: seq<byte>, p: nat)
    requires synced != [] && synced[|synced| - 1].Flushed? && synced <= ops && |kept| == |ops|
    requires FitsDisk(ops, |initial|) && FitsDisk(synced, |initial|) && AllLanded(synced, ops, disk) && p < |initial| == |disk|
    ensures var old_, new_ := Visible(initial, synced)[p], disk[p];
            && (Visible(initial, ops)[p] == old_ || Visible(initial, ops)[p] == new_)
            && (AfterLosing(initial, ops, kept)[p] == old_ || AfterLosing(initial, ops, kept)[p] == new_)
    decreases |ops|
  {
    if |ops| == |synced| {
      assert ops == synced;
    } else {
      var n := |ops| - 1;
      assert synced <= ops[..n];
      assert AllLanded(synced, ops[..n], disk) by {
        assert forall k :: |synced| <= k < n ==> ops[..n][k] == ops[k];
      }
      OldOrNew(initial, synced, ops[..n], kept[..n], disk, p);
      if ops[n].Wrote? && ops[n].at <= p < ops[n].at + |ops[n].bytes| {
        assert disk[ops[n].at..ops[n].at + |ops[n].bytes|][p - ops[n].at] == disk[p];
        SplicedByte(Visible(initial, ops[..n]), ops[n].at, ops[n].bytes, p);
        SplicedByte(AfterLosing(initial, ops[..n], kept[..n]), ops[n].at, ops[n].bytes, p);
      }
    }
  }

  lemma SplicedByte(d: seq<byte>, at: nat, bytes: seq<byte>, p: nat)
    requires at + |bytes| <= |d| && at <= p < at + |bytes|
    ensures Splice(d, at, bytes)[p] == bytes[p - at]
  {
    assert Splice(d, at, bytes)[at..at + |bytes|][p - at] == Splice(d, at, bytes)[p];
  }

  lemma {:induction false} LosingNothing(initial: seq<byte>, ops: seq<DeviceOp>)
    requires FitsDisk(ops, |initial|)
    ensures AfterLosing(initial, ops, seq(|ops|, _ => true)) == Visible(initial, ops)
  {
    if ops != [] {
      var n := |ops| - 1;
      LosingNothing(initial, ops[..n]);
      assert seq(|ops|, _ => true)[..n] == seq(n, _ => true);
    }
  }

  /** The overwritten bytes: where they are, and that nothing else changed. */
  lemma OverwrittenParts(g: Superblock, s: Sys, slot: nat, data: seq<byte>, offset: nat, s': Sys) returns (lo: nat, hi: nat)
    requires FilesOk(g, s) && slot in s.open && slot in s'.open && |data| > 0
    requires BlocksEnd(g, offset, |data|) <= s.open[slot].blockCount
    requires OverwriteStep(g, s.store, s'.store, s.open[slot], s'.open[slot], data, offset, OK)
    ensures slot < |s.store.table| && s.store.table[slot].InUse() && s'.store.initial == s.store.initial
    ensures At(g, 0) <= lo && DiskStep(s.store, s'.store, lo, hi)
    ensures var at := At(g, s.store.table[slot].startBlock);
            && at + offset + |data| <= |s.store.disk| && s'.store.disk == Splice(s.store.disk, at + offset, data)
            && at <= lo <= at + offset && at + offset + |data| <= hi <= At(g, s.store.table[slot].startBlock + s.store.table[slot].blockCount)
    ensures AllLanded(s.store.trace, s'.store.trace, s'.store.disk)
  {
    hide Blocks, BlockOf, FirstBlock, BlocksEnd, At, Visible, FitsDisk, Apart, WroteOnly, Members, Range, Unflushed, SameOutside, Splice, AllLanded;
    lo, hi := OverwriteFrame(g, s.store, s'.store, s.open[slot], s'.open[slot], data, offset, OK);
    OverwriteRange(g, s.store.table[slot], s.open[slot].startLba, offset, |data|);
    TransferBlocks(g, offset, |data|);
  }

  lemma RewriteIsLossSafe(g: Superblock, s: Sys, slot: nat, data: seq<byte>, offset: nat, s': Sys)
    requires Synced(g, s) && Inv(g, s') && slot in s.open && slot in s'.open && |data| > 0 && slot < |s.store.table|
    requires g.blockSize > 0 && BlocksEnd(g, offset, |data|) <= s.open[slot].blockCount
    requires OverwriteStep(g, s.store, s'.store, s.open[slot], s'.open[slot], data, offset, OK)
    requires Rewrites(g, s.store, s.store.table[slot], data, offset)
    ensures LossSafe(g, s.store, s'.store.trace)
  {
    StoreFacts(g, s);
    InvDisk(g, s');
    var lo, hi := OverwrittenParts(g, s, slot, data, offset, s');
    var ops := s'.store.trace;
    forall kept: seq<bool> | |kept| == |ops|
      ensures KeepsFiles(g, s.store, AfterLosing(s.store.initial, ops, kept))
    {
      RewriteKeeps(g, s, slot, data, offset, s', lo, hi, kept);
    }
  }

  lemma RewriteKeeps(g: Superblock, s: Sys, slot: nat, data: seq<byte>, offset: nat, s': Sys, lo: nat, hi: nat, kept: seq<bool>)
    requires Synced(g, s) && slot < |s.store.table| && s.store.table[slot].InUse() && FitsDisk(s'.store.trace, |s.store.initial|)
    requires |kept| == |s'.store.trace| && |s.store.disk| == |s.store.initial| == |s'.store.disk|
    requires At(g, 0) <= lo && DiskStep(s.store, s'.store, lo, hi)
    requires var at := At(g, s.store.table[slot].startBlock);
             && at + offset + |data| <= |s.store.disk| && s'.store.disk == Splice(s.store.disk, at + offset, data)
             && at <= lo <= at + offset && at + offset + |data| <= hi <= At(g, s.store.table[slot].startBlock + s.store.table[slot].blockCount)
    requires AllLanded(s.store.trace, s'.store.trace, s'.store.disk) && Rewrites(g, s.store, s.store.table[slot], data, offset)
    ensures KeepsFiles(g, s.store, AfterLosing(s.store.initial, s'.store.trace, kept))
  {
    StoreFacts(g, s);
    var ops, image := s'.store.trace, AfterLosing(s.store.initial, s'.store.trace, kept);
    LossOutside(s.store, s'.store, kept, lo, hi);
    hide At, Visible, CleanOk, MetadataOnDisk, Splice, Apart, Accounted, Unflushed, AllLanded, WroteOnly, RecordedBytesKept, Rewrites, Inv,
         StoreOk, DiskStep, AfterLosing, SameOutside;
    MetadataSurvives(g, s.store, image, lo, hi);
    forall i | 0 <= i < |s.store.table| && s.store.table[i].InUse()
      ensures RecordedBytesKept(g, s.store.table, s.store.disk, image, i)
    {
      RewriteKeepsEntry(g, s, slot, data, offset, s', lo, hi, kept, i);
    }
  }

  lemma LossOutside(s: Store, s': Store, kept: seq<bool>, lo: nat, hi: nat)
    requires DeviceOk(s) && s.trace != [] && s.trace[|s.trace| - 1].Flushed? && DiskStep(s, s', lo, hi) && |kept| == |s'.trace|
    ensures SameOutside(s.disk, AfterLosing(s.initial, s'.trace, kept), lo, hi)
  {
    hide Visible, Unflushed, WroteOnly, AfterLosing;
    var image := AfterLosing(s.initial, s'.trace, kept);
    LostWritesGiveCrashImage(s.initial, s'.trace, kept);
    forall p: nat | p < |image| && !(lo <= p < hi)
      ensures image[p] == s.disk[p]
    {
      CrashOutsideUnchanged(s.initial, s.trace, s'.trace, lo, hi, p);
    }
  }

  lemma RewriteKeepsEntry(g: Superblock, s: Sys, slot: nat, data: seq<byte>, offset: nat, s': Sys, lo: nat, hi: nat, kept: seq<bool>, i: nat)
    requires Synced(g, s) && slot < |s.store.table| && s.store.table[slot].InUse() && FitsDisk(s'.store.trace, |s.store.initial|)
    requires |kept| == |s'.store.trace| && |s.store.disk| == |s.store.initial| == |s'.store.disk|
    requires At(g, 0) <= lo && DiskStep(s.store, s'.store, lo, hi)
    requires var at := At(g, s.store.table[slot].startBlock);
             && at + offset + |data| <= |s.store.disk| && s'.store.disk == Splice(s.store.disk, at + offset, data)
             && at <= lo <= at + offset && at + offset + |data| <= hi <= At(g, s.store.table[slot].startBlock + s.store.table[slot].blockCount)
    requires AllLanded(s.store.trace, s'.store.trace, s'.store.disk) && Rewrites(g, s.store, s.store.table[slot], data, offset)
    requires i < |s.store.table| && s.store.table[i].InUse()
    ensures RecordedBytesKept(g, s.store.table, s.store.disk, AfterLosing(s.store.initial, s'.store.trace, kept), i)
  {
    StoreFacts(g, s);
    if i != slot {
      OtherFileOutside(g, s, slot, i, lo, hi);
    }
    hide *;
    LostBytes(g, s.store, s'.store, slot, data, offset, lo, hi, kept, i);
  }

  lemma LostBytes(g: Superblock, s: Store, s': Store, slot: nat, data: seq<byte>, offset: nat, lo: nat, hi: nat, kept: seq<bool>, i: nat)
    requires DeviceOk(s) && FitsDisk(s.trace, |s.initial|) && FitsDisk(s'.trace, |s.initial|) && |s.disk| == |s.initial| == |s'.disk|
    requires s.trace != [] && s.trace[|s.trace| - 1].Flushed? && DiskStep(s, s', lo, hi) && |kept| == |s'.trace|
    requires AllLanded(s.trace, s'.trace, s'.disk) && slot < |s.table| && Rewrites(g, s, s.table[slot], data, offset)
    requires var at := At(g, s.table[slot].startBlock) + offset;
             at + |data| <= |s.disk| && s'.disk == Splice(s.disk, at, data) && lo <= at && at + |data| <= hi
    requires i < |s.table| && s.table[i].InUse() && (i != slot ==> Outside(g, s.table[i], lo, hi))
    ensures RecordedBytesKept(g, s.table, s.disk, AfterLosing(s.initial, s'.trace, kept), i)
  {
    hide At, Visible, FitsDisk, Splice, Unflushed, AllLanded, Rewrites, AfterLosing;
    assert s.trace <= s'.trace;
    hide WroteOnly, DiskStep;
    forall p: nat | RecordedIn(g, s.table[i], p) && p < |s.disk|
      ensures AfterLosing(s.initial, s'.trace, kept)[p] == s.disk[p]
    {
      LostByte(g, s, s', s.table[slot], data, offset, kept, p, i == slot);
    }
  }

  lemma LostByte(g: Superblock, s: Store, s': Store, e: FileEntry, data: seq<byte>, offset: nat, kept: seq<bool>, p: nat, inside: bool)
    requires DeviceOk(s) && FitsDisk(s.trace, |s.initial|) && FitsDisk(s'.trace, |s.initial|) && |s.disk| == |s.initial| == |s'.disk|
    requires s.trace != [] && s.trace[|s.trace| - 1].Flushed? && s.trace <= s'.trace && |kept| == |s'.trace|
    requires AllLanded(s.trace, s'.trace, s'.disk) && Rewrites(g, s, e, data, offset)
    requires var at := At(g, e.startBlock) + offset;
             && at + |data| <= |s.disk| && s'.disk == Splice(s.disk, at, data)
             && (if inside then RecordedIn(g, e, p) else !(at <= p < at + |data|))
    requires p < |s.disk|
    ensures AfterLosing(s.initial, s'.trace, kept)[p] == s.disk[p]
  {
    hide At, FitsDisk, Splice, Unflushed, AllLanded, Rewrites, AfterLosing, Visible;
    OldOrNew(s.initial, s.trace, s'.trace, kept, s'.disk, p);
    SplicedSame(g, s, e, data, offset, s'.disk, p, inside);
  }

  lemma SplicedSame(g: Superblock, s: Store, e: FileEntry, data: seq<byte>, offset: nat, disk: seq<byte>, p: nat, inside: bool)
    requires var at := At(g, e.startBlock); at + offset + |data| <= |s.disk| && disk == Splice(s.disk, at + offset, data)
    requires p < |s.disk| && Rewrites(g, s, e, data, offset) && (inside ==> RecordedIn(g, e, p))
    ensures inside || !(At(g, e.startBlock) + offset <= p < At(g, e.startBlock) + offset + |data|) ==> disk[p] == s.disk[p]
  {
    hide At, Splice;
    var at := At(g, e.startBlock) + offset;
    if at <= p < at + |data| {
      SplicedByte(s.disk, at, data, p);
      if inside {
        assert data[p - at] == s.disk[At(g, e.startBlock) + offset + (p - at)];
      }
    }
  }

  lemma NewValueIsNotLossSafe(g: Superblock, s: Sys, slot: nat, data: seq<byte>, offset: nat, s': Sys)
    requires Inv(g, s) && Inv(g, s') && slot in s.open && slot in s'.open && |data| > 0 && slot < |s.store.table|
    requires g.blockSize > 0 && BlocksEnd(g, offset, |data|) <= s.open[slot].blockCount
    requires OverwriteStep(g, s.store, s'.store, s.open[slot], s'.open[slot], data, offset, OK)
    requires !Rewrites(g, s.store, s.store.table[slot], data, offset)
    ensures !LossSafe(g, s.store, s'.store.trace)
  {
    hide *;
    InvDisk(g, s);
    InvDisk(g, s');
    var lo, hi := OverwrittenParts(g, s, slot, data, offset, s');
    var p := NewByte(g, s.store, s.store.table[slot], data, offset, s'.store.disk);
    NewByteIsNotLossSafe(g, s.store, s'.store.trace, slot, p);
  }

  lemma NewByte(g: Superblock, s: Store, e: FileEntry, data: seq<byte>, offset: nat, disk: seq<byte>) returns (p: nat)
    requires e.InUse() && !Rewrites(g, s, e, data, offset)
    requires var at := At(g, e.startBlock); at + offset + |data| <= |s.disk| && disk == Splice(s.disk, at + offset, data)
    ensures p < |s.disk| && RecordedIn(g, e, p) && disk[p] != s.disk[p]
  {
    hide At, Splice;
    var at := At(g, e.startBlock) + offset;
    var i :| 0 <= i < |data| && offset + i < e.byteLength && at + i < |s.disk| && data[i] != s.disk[at + i];
    SplicedByte(s.disk, at, data, at + i);
    p := at + i;
  }

  /** A recorded byte that now holds another value is lost with no write lost at all. */
  lemma NewByteIsNotLossSafe(g: Superblock, s: Store, ops: seq<DeviceOp>, i: nat, p: nat)
    requires FitsDisk(ops, |s.initial|) && p < |s.disk| == |s.initial| && Visible(s.initial, ops)[p] != s.disk[p]
    requires i < |s.table| && RecordedIn(g, s.table[i], p)
    ensures !LossSafe(g, s, ops)
  {
    hide At, Visible, FitsDisk, MetadataOnDisk;
    LosingNothing(s.initial, ops);
    assert !RecordedBytesKept(g, s.table, s.disk, Visible(s.initial, ops), i);
    var kept := seq(|ops|, _ => true);
    assert !KeepsFiles(g, s, AfterLosing(s.initial, ops, kept));
  }
}
