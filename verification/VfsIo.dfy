/** Block transfers of the VFS: chunked reads and writes, and the copy made when a file moves. */
module VfsIo {
  import opened Bits
  import opened Bytes
  import opened RamDisks
  import opened VfsModel

  /** Maximum blocks of one device command. */
  const MAX_BLOCKS_PER_IO: nat := 0xFFFF

  function Least(a: nat, b: nat): nat {
    if a < b then a else b
  }

  // ---- Reading ----

  /** What the outcome of a transfer of `end` bytes from the start of the disk says about refusals: it
      succeeds exactly when the bytes are on the disk and nothing was refused, and needs buffers of its own
      only for more than one command. */
  ghost predicate Explained(ok: bool, end: nat, size: nat, blockCount: nat, before: Refusals, after: Refusals) {
    && (ok <==> end <= size && after == before)
    && before.UpTo(after) && (blockCount <= MAX_BLOCKS_PER_IO ==> after.buffers == before.buffers)
  }

  lemma TransferFailed(start: nat, done: nat, chunk: nat, total: nat, size: nat, limit: nat, before: Refusals, after: Refusals)
    requires done + chunk <= total && before.UpTo(after) && (total <= MAX_BLOCKS_PER_IO ==> after.buffers == before.buffers)
    requires Blocks(start + done, size) + Blocks(chunk, size) > limit || after != before
    ensures Explained(false, Blocks(start, size) + Blocks(total, size), limit, total, before, after)
  {
    hide Blocks;
    NextChunk(start, done, chunk, total, size);
  }

  lemma TransferDone(start: nat, total: nat, size: nat, limit: nat, refused: Refusals)
    requires Blocks(start + total, size) <= limit
    ensures Explained(true, Blocks(start, size) + Blocks(total, size), limit, total, refused, refused)
  {
    hide Blocks;
    BlocksAdd(start, total, size);
  }

  /** Why an operation that transfers `blocks` blocks returns an error: the device was never initialised, a
      buffer was denied, or a command was refused (a buffer also counts when it takes more than one command). */
  ghost predicate Caused(code: Code, ready: bool, blocks: int, before: Refusals, after: Refusals) {
    && before.UpTo(after)
    && (code == IOERR <==> !ready) && (!ready ==> after == before)
    && (code == IOERR_NOMEM ==> after.buffers > before.buffers)
    && (code == IOERR_READ || code == IOERR_WRITE || code == IOERR_FSYNC ==>
          after != before && (blocks <= MAX_BLOCKS_PER_IO ==> after.commands > before.commands))
  }

  /** Read `blockCount` blocks into `dma`, in chunks when they exceed one command. */
  method ChunkedRead(nvme: RamDisk, startLba: nat, blockCount: nat, dma: array<byte>) returns (ok: bool)
    requires nvme.Valid() && dma.Length == Blocks(blockCount, nvme.blockSize) && blockCount > 0
    modifies dma, nvme.env
    ensures Explained(ok, Blocks(startLba, nvme.blockSize) + dma.Length, |nvme.data|, blockCount, old(nvme.env.refused), nvme.env.refused)
    ensures ok ==>
              && Blocks(startLba, nvme.blockSize) + dma.Length <= |nvme.data|
              && dma[..] == nvme.data[Blocks(startLba, nvme.blockSize)..Blocks(startLba, nvme.blockSize) + dma.Length]
  {
    hide Blocks;
    var remaining, lba, byteOffset := blockCount, startLba, 0;
    NextChunk(startLba, 0, 0, blockCount, nvme.blockSize);
    while remaining > 0
      invariant 0 <= remaining <= blockCount && lba == startLba + (blockCount - remaining)
      invariant byteOffset == Blocks(blockCount - remaining, nvme.blockSize) <= dma.Length
      invariant ReadSoFar(nvme.data, dma[..], startLba, blockCount - remaining, nvme.blockSize)
      invariant nvme.env.refused == old(nvme.env.refused) && (0 < remaining < blockCount ==> blockCount > MAX_BLOCKS_PER_IO)
    {
      var chunk := Least(remaining, MAX_BLOCKS_PER_IO);
      NextChunk(startLba, blockCount - remaining, chunk, blockCount, nvme.blockSize);
      ok := ReadChunk(nvme, startLba, blockCount - remaining, chunk, dma, byteOffset, remaining == blockCount && chunk == blockCount);
      if !ok {
        return false;
      }
      remaining := remaining - chunk;
      lba := lba + chunk;
      byteOffset := byteOffset + Blocks(chunk, nvme.blockSize);
    }
    assert dma[..dma.Length] == dma[..];
    return true;
  }

  /** The buffer starts with the `done` blocks from `start` on. */
  ghost predicate ReadSoFar(data: seq<byte>, buf: seq<byte>, start: nat, done: nat, size: nat) {
    done > 0 ==>
      && Blocks(start, size) + Blocks(done, size) <= |data| && Blocks(done, size) <= |buf|
      && buf[..Blocks(done, size)] == data[Blocks(start, size)..Blocks(start, size) + Blocks(done, size)]
  }

  /** Positions after one more chunk. */
  lemma NextChunk(start: nat, done: nat, chunk: nat, total: nat, size: nat)
    requires done + chunk <= total
    ensures Blocks(done + chunk, size) == Blocks(done, size) + Blocks(chunk, size) <= Blocks(total, size)
    ensures Blocks(start + done, size) == Blocks(start, size) + Blocks(done, size)
    ensures Blocks(start + done + chunk, size) == Blocks(start, size) + Blocks(done + chunk, size)
    ensures Blocks(start + total, size) == Blocks(start, size) + Blocks(total, size)
    ensures Blocks(0, size) == 0
  {
    hide Blocks;
    BlocksAdd(done, chunk, size);
    BlocksMono(done + chunk, total, size);
    BlocksAdd(start, done, size);
    BlocksAdd(start, done + chunk, size);
    assert start + done + chunk == start + (done + chunk);
    BlocksAdd(start, total, size);
    BlocksIs(0, size);
  }

  method ReadChunk(nvme: RamDisk, start: nat, done: nat, chunk: nat, dma: array<byte>, byteOffset: nat, direct: bool) returns (ok: bool)
    requires nvme.Valid() && 0 < chunk <= MAX_BLOCKS_PER_IO
    requires byteOffset + Blocks(chunk, nvme.blockSize) <= dma.Length && byteOffset == Blocks(done, nvme.blockSize)
    requires ReadSoFar(nvme.data, dma[..], start, done, nvme.blockSize)
    requires direct ==> byteOffset == 0 && dma.Length == Blocks(chunk, nvme.blockSize)
    modifies dma, nvme.env
    ensures ok <==> Blocks(start + done, nvme.blockSize) + Blocks(chunk, nvme.blockSize) <= |nvme.data| && nvme.env.refused == old(nvme.env.refused)
    ensures old(nvme.env.refused).UpTo(nvme.env.refused) && (direct ==> nvme.env.refused.buffers == old(nvme.env.refused.buffers))
    ensures ok ==> ReadSoFar(nvme.data, dma[..], start, done + chunk, nvme.blockSize)
  {
    hide Blocks;
    ghost var before := dma[..];
    assert before[..byteOffset] == dma[..byteOffset];
    ok := TransferIn(nvme, start + done, chunk, dma, byteOffset, direct);
    if ok {
      NextChunk(start, done, chunk, done + chunk, nvme.blockSize);
      assert dma[..][..byteOffset] == dma[..byteOffset];
      assert dma[..][byteOffset..byteOffset + Blocks(chunk, nvme.blockSize)] == dma[byteOffset..byteOffset + Blocks(chunk, nvme.blockSize)];
      ReadExtended(nvme.data, before, dma[..], Blocks(start, nvme.blockSize), byteOffset, Blocks(chunk, nvme.blockSize), done > 0);
    }
  }

  lemma ReadExtended(data: seq<byte>, before: seq<byte>, after: seq<byte>, at: nat, n: nat, m: nat, some: bool)
    requires |after| == |before| && n + m <= |after| && at + n + m <= |data|
    requires if some then before[..n] == data[at..at + n] else n == 0
    requires after[..n] == before[..n] && after[n..n + m] == data[at + n..at + n + m]
    ensures after[..n + m] == data[at..at + n + m]
  {
    assert after[..n + m] == after[..n] + after[n..n + m];
    assert data[at..at + n + m] == data[at..at + n] + data[at + n..at + n + m];
  }

  /** Bring one chunk into the buffer: directly when it is the only one, else through a temporary one. */
  method TransferIn(nvme: RamDisk, lba: nat, chunk: nat, dma: array<byte>, byteOffset: nat, direct: bool) returns (ok: bool)
    requires nvme.Valid() && 0 < chunk <= MAX_BLOCKS_PER_IO
    requires byteOffset + Blocks(chunk, nvme.blockSize) <= dma.Length
    requires direct ==> byteOffset == 0 && dma.Length == Blocks(chunk, nvme.blockSize)
    modifies dma, nvme.env
    ensures ok <==> Blocks(lba, nvme.blockSize) + Blocks(chunk, nvme.blockSize) <= |nvme.data| && nvme.env.refused == old(nvme.env.refused)
    ensures old(nvme.env.refused).UpTo(nvme.env.refused) && (direct ==> nvme.env.refused.buffers == old(nvme.env.refused.buffers))
    ensures ok ==>
              && Blocks(lba, nvme.blockSize) + Blocks(chunk, nvme.blockSize) <= |nvme.data|
              && dma[..byteOffset] == old(dma[..byteOffset])
              && dma[byteOffset..byteOffset + Blocks(chunk, nvme.blockSize)]
                 == nvme.data[Blocks(lba, nvme.blockSize)..Blocks(lba, nvme.blockSize) + Blocks(chunk, nvme.blockSize)]
  {
    BlocksIs(lba, nvme.blockSize);
    BlocksIs(chunk, nvme.blockSize);
    var n := Blocks(chunk, nvme.blockSize);
    if direct {
      ok := nvme.ReadBlocks(lba, chunk, dma);
    } else {
      var tmp := nvme.env.AllocDma(n);
      if tmp == null {
        return false;
      }
      ok := nvme.ReadBlocks(lba, chunk, tmp);
      if ok {
        forall i | 0 <= i < n {
          dma[byteOffset + i] := tmp[i];
        }
        assert dma[byteOffset..byteOffset + n] == tmp[..n];
      }
    }
  }

  // ---- Writing ----

  /** What writing blocks does to the disk. */
  ghost predicate BlocksWritten(before: seq<byte>, after: seq<byte>, lba: nat, count: nat, size: nat, bytes: seq<byte>) {
    && |bytes| == Blocks(count, size) && Blocks(lba, size) + |bytes| <= |before|
    && after == Splice(before, Blocks(lba, size), bytes)
  }

  /** Write `blockCount` blocks from `dma`, in chunks when they exceed one command. */
  method ChunkedWrite(nvme: RamDisk, startLba: nat, blockCount: nat, dma: array<byte>) returns (ok: bool)
    requires nvme.Valid() && dma.Length == Blocks(blockCount, nvme.blockSize) && blockCount > 0
    modifies nvme, nvme.env
    ensures Explained(ok, Blocks(startLba, nvme.blockSize) + dma.Length, |nvme.data|, blockCount, old(nvme.env.refused), nvme.env.refused)
    ensures nvme.Valid() && nvme.flushCount == old(nvme.flushCount)
    ensures WroteOnly(old(nvme.trace), nvme.trace, Blocks(startLba, nvme.blockSize), Blocks(startLba + blockCount, nvme.blockSize))
    ensures ok ==> BlocksWritten(old(nvme.data), nvme.data, startLba, blockCount, nvme.blockSize, dma[..])
    ensures ok ==> AllUnflushed(nvme.trace, Blocks(startLba, nvme.blockSize), Blocks(startLba + blockCount, nvme.blockSize))
    ensures ok ==> AllLanded(old(nvme.trace), nvme.trace, nvme.data)
  {
    hide WriteProgress, WrittenSoFar, BlocksWritten, AllUnflushed, Unflushed, AllLanded, WroteOnly, Explained, Blocks, Splice, Visible, FitsDisk;
    var remaining, lba, byteOffset := blockCount, startLba, 0;
    var size := nvme.blockSize;
    NextChunk(startLba, 0, 0, blockCount, size);
    WriteBegins(nvme.data, nvme.trace, startLba, size, dma[..]);
    while remaining > 0
      invariant nvme.Valid() && nvme.flushCount == old(nvme.flushCount) && |nvme.data| == |old(nvme.data)|
      invariant 0 <= remaining <= blockCount && lba == startLba + (blockCount - remaining)
      invariant byteOffset == Blocks(blockCount - remaining, size) <= dma.Length
      invariant nvme.env.refused == old(nvme.env.refused) && (0 < remaining < blockCount ==> blockCount > MAX_BLOCKS_PER_IO)
      invariant WriteProgress(old(nvme.data), nvme.data, old(nvme.trace), nvme.trace, startLba, blockCount - remaining, size, dma[..])
    {
      var chunk := Least(remaining, MAX_BLOCKS_PER_IO);
      NextChunk(startLba, blockCount - remaining, chunk, blockCount, size);
      ok := WriteChunk(nvme, startLba, blockCount - remaining, chunk, dma, byteOffset, remaining == blockCount && chunk == blockCount,
                       old(nvme.data), old(nvme.trace));
      if !ok {
        WriteStopped(nvme.data, old(nvme.trace), nvme.trace, startLba, blockCount - remaining, chunk, blockCount, size,
                     old(nvme.env.refused), nvme.env.refused);
        return false;
      }
      remaining := remaining - chunk;
      lba := lba + chunk;
      byteOffset := byteOffset + Blocks(chunk, size);
    }
    WriteEnds(old(nvme.data), nvme.data, old(nvme.trace), nvme.trace, startLba, blockCount, size, dma[..], nvme.env.refused);
    return true;
  }

  /** The first `done` blocks have been written, one chunk after the other and nothing else. */
  ghost predicate WriteProgress(first: seq<byte>, disk: seq<byte>, began: seq<DeviceOp>, trace: seq<DeviceOp>, start: nat, done: nat, size: nat,
                                buf: seq<byte>) {
    && WrittenSoFar(first, disk, trace, start, done, size, buf)
    && WroteOnly(began, trace, Blocks(start, size), Blocks(start + done, size))
    && AllLanded(began, trace, disk)
    && (done > 0 ==> Blocks(start + done, size) <= |disk|)
  }

  lemma WriteBegins(disk: seq<byte>, trace: seq<DeviceOp>, start: nat, size: nat, buf: seq<byte>)
    ensures WriteProgress(disk, disk, trace, trace, start, 0, size, buf)
  {
    hide Blocks;
  }

  lemma WriteStopped(disk: seq<byte>, began: seq<DeviceOp>, trace: seq<DeviceOp>, start: nat, done: nat, chunk: nat, total: nat, size: nat,
                     before: Refusals, after: Refusals)
    requires done + chunk <= total && before.UpTo(after) && (total <= MAX_BLOCKS_PER_IO ==> after.buffers == before.buffers)
    requires Blocks(start + done, size) + Blocks(chunk, size) > |disk| || after != before
    requires WroteOnly(began, trace, Blocks(start, size), Blocks(start + done + chunk, size))
    ensures WroteOnly(began, trace, Blocks(start, size), Blocks(start + total, size))
    ensures Explained(false, Blocks(start, size) + Blocks(total, size), |disk|, total, before, after)
  {
    hide Blocks, WroteOnly;
    BlocksMono(start + done + chunk, start + total, size);
    WroteOnlyWidens(began, trace, Blocks(start, size), Blocks(start + done + chunk, size), Blocks(start, size), Blocks(start + total, size));
    TransferFailed(start, done, chunk, total, size, |disk|, before, after);
  }

  lemma WriteEnds(first: seq<byte>, disk: seq<byte>, began: seq<DeviceOp>, trace: seq<DeviceOp>, start: nat, total: nat, size: nat,
                  buf: seq<byte>, refused: Refusals)
    requires total > 0 && |buf| == Blocks(total, size) && WriteProgress(first, disk, began, trace, start, total, size, buf)
    ensures WroteOnly(began, trace, Blocks(start, size), Blocks(start + total, size)) && AllLanded(began, trace, disk)
    ensures BlocksWritten(first, disk, start, total, size, buf)
    ensures AllUnflushed(trace, Blocks(start, size), Blocks(start + total, size))
    ensures Explained(true, Blocks(start, size) + Blocks(total, size), |disk|, total, refused, refused)
  {
    hide Blocks, Unflushed, Splice, WroteOnly, AllLanded;
    TransferDone(start, total, size, |disk|, refused);
    BlocksAdd(start, total, size);
    assert buf[..Blocks(total, size)] == buf;
  }

  lemma NothingWritten(trace: seq<DeviceOp>, lo: nat, hi: nat)
    ensures WroteOnly(trace, trace, lo, hi)
  {
  }

  /** The `done` blocks from `start` on hold the first bytes of the buffer, and none of them has been flushed. */
  ghost predicate WrittenSoFar(before: seq<byte>, after: seq<byte>, trace: seq<DeviceOp>, start: nat, done: nat, size: nat, buf: seq<byte>) {
    if done == 0 then after == before
    else
      && Blocks(start, size) + Blocks(done, size) <= |before| && Blocks(done, size) <= |buf|
      && after == Splice(before, Blocks(start, size), buf[..Blocks(done, size)])
      && AllUnflushed(trace, Blocks(start, size), Blocks(start, size) + Blocks(done, size))
  }

  ghost predicate AllUnflushed(trace: seq<DeviceOp>, lo: nat, hi: nat) {
    forall i :: lo <= i < hi ==> Unflushed(trace, i)
  }

  method WriteChunk(nvme: RamDisk, start: nat, done: nat, chunk: nat, dma: array<byte>, byteOffset: nat, direct: bool,
                    ghost first: seq<byte>, ghost began: seq<DeviceOp>) returns (ok: bool)
    requires nvme.Valid() && 0 < chunk <= MAX_BLOCKS_PER_IO && |first| == |nvme.data|
    requires byteOffset + Blocks(chunk, nvme.blockSize) <= dma.Length && byteOffset == Blocks(done, nvme.blockSize)
    requires WriteProgress(first, nvme.data, began, nvme.trace, start, done, nvme.blockSize, dma[..])
    requires direct ==> byteOffset == 0 && dma.Length == Blocks(chunk, nvme.blockSize)
    modifies nvme, nvme.env
    ensures ok <==> Blocks(start + done, nvme.blockSize) + Blocks(chunk, nvme.blockSize) <= |nvme.data| && nvme.env.refused == old(nvme.env.refused)
    ensures old(nvme.env.refused).UpTo(nvme.env.refused) && (direct ==> nvme.env.refused.buffers == old(nvme.env.refused.buffers))
    ensures nvme.Valid() && nvme.flushCount == old(nvme.flushCount) && |nvme.data| == |old(nvme.data)|
    ensures WroteOnly(began, nvme.trace, Blocks(start, nvme.blockSize), Blocks(start + done + chunk, nvme.blockSize))
    ensures ok ==> WriteProgress(first, nvme.data, began, nvme.trace, start, done + chunk, nvme.blockSize, dma[..])
  {
    hide Blocks, Unflushed, WroteOnly, Visible, FitsDisk, Splice, AllLanded;
    ghost var earlier, size := nvme.trace, nvme.blockSize;
    ghost var lo, at, hi := Blocks(start, size), Blocks(start + done, size), Blocks(start + done + chunk, size);
    NextChunk(start, done, chunk, done + chunk, size);
    ok := TransferOut(nvme, start + done, chunk, dma, byteOffset, direct);
    WroteOnlyWidens(began, earlier, lo, at, lo, hi);
    WroteOnlyWidens(earlier, nvme.trace, at, hi, lo, hi);
    WroteOnlyTransitive(began, earlier, nvme.trace, lo, hi);
    if ok {
      ghost var bytes := dma[byteOffset..byteOffset + Blocks(chunk, size)];
      assert dma[..][byteOffset..byteOffset + Blocks(chunk, size)] == bytes;
      LandedExtended(began, earlier, old(nvme.data), lo, at, bytes);
      WriteExtended(first, old(nvme.data), nvme.data, lo, dma[..], byteOffset, Blocks(chunk, size), done > 0);
    }
  }

  lemma WriteExtended(first: seq<byte>, before: seq<byte>, after: seq<byte>, at: nat, buf: seq<byte>, n: nat, m: nat, some: bool)
    requires |first| == |before| && n + m <= |buf| && at + n + m <= |first|
    requires if some then before == Splice(first, at, buf[..n]) else before == first && n == 0
    requires after == Splice(before, at + n, buf[n..n + m])
    ensures after == Splice(first, at, buf[..n + m])
  {
    assert buf[..n + m] == buf[..n] + buf[n..n + m];
  }

  /** Send one chunk of the buffer: directly when it is the only one, else through a temporary one. */
  method TransferOut(nvme: RamDisk, lba: nat, chunk: nat, dma: array<byte>, byteOffset: nat, direct: bool) returns (ok: bool)
    requires nvme.Valid() && 0 < chunk <= MAX_BLOCKS_PER_IO
    requires byteOffset + Blocks(chunk, nvme.blockSize) <= dma.Length
    requires direct ==> byteOffset == 0 && dma.Length == Blocks(chunk, nvme.blockSize)
    modifies nvme, nvme.env
    ensures ok <==> Blocks(lba, nvme.blockSize) + Blocks(chunk, nvme.blockSize) <= |nvme.data| && nvme.env.refused == old(nvme.env.refused)
    ensures old(nvme.env.refused).UpTo(nvme.env.refused) && (direct ==> nvme.env.refused.buffers == old(nvme.env.refused.buffers))
    ensures nvme.Valid() && nvme.flushCount == old(nvme.flushCount)
    ensures WroteOnly(old(nvme.trace), nvme.trace, Blocks(lba, nvme.blockSize), Blocks(lba + chunk, nvme.blockSize))
    ensures ok ==> Blocks(lba, nvme.blockSize) + Blocks(chunk, nvme.blockSize) <= |nvme.data|
    ensures ok ==> nvme.data == Splice(old(nvme.data), Blocks(lba, nvme.blockSize), dma[byteOffset..byteOffset + Blocks(chunk, nvme.blockSize)])
    ensures ok ==> nvme.trace == old(nvme.trace) + [Wrote(Blocks(lba, nvme.blockSize), dma[byteOffset..byteOffset + Blocks(chunk, nvme.blockSize)])]
    ensures ok ==> forall i: nat :: (Blocks(lba, nvme.blockSize) <= i < Blocks(lba + chunk, nvme.blockSize) || Unflushed(old(nvme.trace), i)) ==> Unflushed(nvme.trace, i)
  {
    hide Blocks;
    BlocksIs(lba, nvme.blockSize);
    BlocksIs(chunk, nvme.blockSize);
    BlocksIs(lba + chunk, nvme.blockSize);
    BlocksAdd(lba, chunk, nvme.blockSize);
    var n := Blocks(chunk, nvme.blockSize);
    if direct {
      assert dma[byteOffset..byteOffset + n] == dma[..n];
      ok := nvme.WriteBlocks(lba, chunk, dma);
    } else {
      var tmp := nvme.env.AllocDma(n);
      if tmp == null {
        return false;
      }
      forall i | 0 <= i < n {
        tmp[i] := dma[byteOffset + i];
      }
      assert tmp[..n] == dma[byteOffset..byteOffset + n];
      ok := nvme.WriteBlocks(lba, chunk, tmp);
    }
  }

  // ---- Moving a file ----

  /** The first `done` blocks have been copied; nothing outside the target changed. */
  ghost predicate CopiedSoFar(before: seq<byte>, after: seq<byte>, from: nat, to: nat, done: nat, lo: nat, hi: nat, size: nat) {
    && SameOutside(before, after, lo, hi)
    && (done > 0 ==>
          && Blocks(from, size) + Blocks(done, size) <= |before| && Blocks(to, size) + Blocks(done, size) <= |before|
          && after[Blocks(to, size)..Blocks(to, size) + Blocks(done, size)] == before[Blocks(from, size)..Blocks(from, size) + Blocks(done, size)])
  }

  /** Copying fails for want of its buffer, or because a command was refused, and then only. */
  ghost predicate CopyExplained(rc: Code, before: Refusals, after: Refusals) {
    && before.UpTo(after) && (rc == OK <==> after == before)
    && (rc == IOERR_NOMEM ==> after.buffers > before.buffers)
    && (rc == IOERR_READ || rc == IOERR_WRITE ==> after.commands > before.commands)
  }

  /** Copy `count` blocks to a place apart from them, one block at a time. */
  method CopyBlocks(nvme: RamDisk, from: nat, to: nat, count: nat) returns (rc: Code)
    requires nvme.Valid() && (from + count <= to || to + count <= from)
    requires Blocks(from + count, nvme.blockSize) <= |nvme.data| && Blocks(to + count, nvme.blockSize) <= |nvme.data|
    modifies nvme, nvme.env
    ensures nvme.Valid()
    ensures CopyExplained(rc, old(nvme.env.refused), nvme.env.refused)
    ensures WroteOnly(old(nvme.trace), nvme.trace, Blocks(to, nvme.blockSize), Blocks(to + count, nvme.blockSize))
    ensures rc == OK || rc == IOERR_NOMEM || rc == IOERR_READ || rc == IOERR_WRITE
    ensures rc == OK ==> CopiedSoFar(old(nvme.data), nvme.data, from, to, count,
                                     Blocks(to, nvme.blockSize), Blocks(to + count, nvme.blockSize), nvme.blockSize)
  {
    hide Blocks, WroteOnly;
    var tmp := nvme.env.AllocDma(nvme.blockSize);
    ghost var lo, hi := Blocks(to, nvme.blockSize), Blocks(to + count, nvme.blockSize);
    NothingWritten(nvme.trace, lo, hi);
    if tmp == null {
      return IOERR_NOMEM;
    }
    for blk := 0 to count
      invariant nvme.Valid() && |nvme.data| == |old(nvme.data)| && nvme.env.refused == old(nvme.env.refused)
      invariant WroteOnly(old(nvme.trace), nvme.trace, lo, hi)
      invariant CopiedSoFar(old(nvme.data), nvme.data, from, to, blk, lo, hi, nvme.blockSize)
    {
      rc := CopyBlock(nvme, from, to, blk, count, tmp, old(nvme.data), old(nvme.trace));
      if rc != OK {
        return rc;
      }
    }
    return OK;
  }

  method CopyBlock(nvme: RamDisk, from: nat, to: nat, blk: nat, count: nat, tmp: array<byte>,
                   ghost first: seq<byte>, ghost start: seq<DeviceOp>) returns (rc: Code)
    requires nvme.Valid() && tmp.Length == nvme.blockSize && blk < count && (from + count <= to || to + count <= from)
    requires WroteOnly(start, nvme.trace, Blocks(to, nvme.blockSize), Blocks(to + count, nvme.blockSize))
    requires CopiedSoFar(first, nvme.data, from, to, blk, Blocks(to, nvme.blockSize), Blocks(to + count, nvme.blockSize), nvme.blockSize)
    requires Blocks(from + count, nvme.blockSize) <= |nvme.data| && Blocks(to + count, nvme.blockSize) <= |nvme.data|
    modifies nvme, nvme.env, tmp
    ensures nvme.Valid() && |nvme.data| == |old(nvme.data)|
    ensures CopyExplained(rc, old(nvme.env.refused), nvme.env.refused)
    ensures WroteOnly(start, nvme.trace, Blocks(to, nvme.blockSize), Blocks(to + count, nvme.blockSize))
    ensures rc == OK || rc == IOERR_READ || rc == IOERR_WRITE
    ensures rc == OK ==> CopiedSoFar(first, nvme.data, from, to, blk + 1, Blocks(to, nvme.blockSize), Blocks(to + count, nvme.blockSize), nvme.blockSize)
  {
    hide Blocks, WroteOnly, Visible, FitsDisk, Splice, SameOutside, CopiedSoFar;
    ghost var earlier, size := nvme.trace, nvme.blockSize;
    NextChunk(to, blk, 1, count, size);
    NextChunk(from, blk, 1, count, size);
    BlocksIs(1, size);
    BlocksIs(to + blk, size);
    BlocksIs(to + blk + 1, size);
    BlocksIs(from + blk, size);
    BlocksMono(from + blk + 1, from + count, size);
    BlocksMono(to + blk + 1, to + count, size);
    BlocksAdd(from + blk, 1, size);
    BlocksAdd(to + blk, 1, size);
    var ok := nvme.ReadBlocks(from + blk, 1, tmp);
    if !ok {
      return IOERR_READ;
    }
    ok := nvme.WriteBlocks(to + blk, 1, tmp);
    WroteOnlyWidens(earlier, nvme.trace, Blocks(to + blk, size), Blocks(to + blk + 1, size), Blocks(to, size), Blocks(to + count, size));
    WroteOnlyTransitive(start, earlier, nvme.trace, Blocks(to, size), Blocks(to + count, size));
    if !ok {
      return IOERR_WRITE;
    }
    assert tmp[..size] == old(nvme.data)[Blocks(from + blk, size)..Blocks(from + blk, size) + size];
    CopyExtended(first, old(nvme.data), nvme.data, from, to, blk, count, size);
    return OK;
  }

  lemma CopyExtended(first: seq<byte>, before: seq<byte>, after: seq<byte>, from: nat, to: nat, blk: nat, count: nat, size: nat)
    requires blk < count && (from + count <= to || to + count <= from)
    requires CopiedSoFar(first, before, from, to, blk, Blocks(to, size), Blocks(to + count, size), size)
    requires Blocks(from + blk, size) + size <= |before| && Blocks(to + blk, size) + size <= |before|
    requires after == Splice(before, Blocks(to + blk, size), before[Blocks(from + blk, size)..Blocks(from + blk, size) + size])
    ensures CopiedSoFar(first, after, from, to, blk + 1, Blocks(to, size), Blocks(to + count, size), size)
  {
    hide Blocks, Splice;
    assert |before| == |first|;
    CopyPlaces(from, to, blk, count, size);
    var f, t, n, hi := Blocks(from, size), Blocks(to, size), Blocks(blk, size), Blocks(to + count, size);
    assert n > 0 ==> before[t..t + n] == first[f..f + n];
    hide SameOutside, CopiedSoFar;
    CopySeq(first, before, after, f, t, n, size, t, hi);
    CopiedNow(first, after, from, to, blk + 1, t, hi, size, n + size);
  }

  lemma CopiedNow(first: seq<byte>, after: seq<byte>, from: nat, to: nat, done: nat, lo: nat, hi: nat, size: nat, n: nat)
    requires SameOutside(first, after, lo, hi) && n == Blocks(done, size)
    requires Blocks(from, size) + n <= |first| && Blocks(to, size) + n <= |first|
    requires after[Blocks(to, size)..Blocks(to, size) + n] == first[Blocks(from, size)..Blocks(from, size) + n]
    ensures CopiedSoFar(first, after, from, to, done, lo, hi, size)
  {
    hide Blocks, SameOutside;
  }

  /** Byte positions of block `blk` of a copy, which ends before the target or starts after it. */
  lemma CopyPlaces(from: nat, to: nat, blk: nat, count: nat, size: nat)
    requires blk < count && (from + count <= to || to + count <= from)
    ensures Blocks(blk + 1, size) == Blocks(blk, size) + size && (blk == 0 ==> Blocks(blk, size) == 0)
    ensures Blocks(from + blk, size) == Blocks(from, size) + Blocks(blk, size)
    ensures Blocks(to + blk, size) == Blocks(to, size) + Blocks(blk, size)
    ensures Blocks(to, size) + Blocks(blk + 1, size) <= Blocks(to + count, size)
    ensures Blocks(from, size) + Blocks(blk + 1, size) <= Blocks(to, size) || Blocks(to + count, size) <= Blocks(from, size)
  {
    hide Blocks;
    NextChunk(to, blk, 1, count, size);
    NextChunk(from, blk, 1, count, size);
    BlocksIs(1, size);
    if from + count <= to {
      BlocksMono(from + count, to, size);
    } else {
      BlocksMono(to + count, from, size);
    }
  }

  lemma CopySeq(first: seq<byte>, before: seq<byte>, after: seq<byte>, f: nat, t: nat, n: nat, m: nat, lo: nat, hi: nat)
    requires SameOutside(first, before, lo, hi) && lo <= t && t + n + m <= hi
    requires f + n + m <= |first| && t + n + m <= |first| && (f + n + m <= lo || hi <= f)
    requires n > 0 ==> before[t..t + n] == first[f..f + n]
    requires after == Splice(before, t + n, before[f + n..f + n + m])
    ensures SameOutside(first, after, lo, hi)
    ensures after[t..t + n + m] == first[f..f + n + m]
  {
    SpliceAround(before, t + n, before[f + n..f + n + m], t, t + n);
    assert before[f + n..f + n + m] == first[f + n..f + n + m];
    assert after[t..t + n + m] == after[t..t + n] + after[t + n..t + n + m];
    assert first[f..f + n + m] == first[f..f + n] + first[f + n..f + n + m];
  }

  /** A disk that is what its history made of it: outside the written range nothing changed. */
  lemma HistoryOutside(s: Store, s': Store, lo: nat, hi: nat)
    requires DeviceOk(s) && DeviceOk(s') && s'.initial == s.initial && WroteOnly(s.trace, s'.trace, lo, hi)
    ensures DiskStep(s, s', lo, hi)
  {
    forall i: nat | i < |s.disk| && !(lo <= i < hi)
      ensures s'.disk[i] == s.disk[i]
    {
      OutsideUnchanged(s.initial, s.trace, s'.trace, lo, hi, i);
    }
  }
}
