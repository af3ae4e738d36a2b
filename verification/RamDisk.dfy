/** The block device. `RamDisk` keeps its contents as one byte vector; the ghost trace records
    every write that reached the medium and every completed flush, which is what a power loss
    can be reasoned about with. */
module RamDisks {
  import opened Bits
  import opened Bytes

  datatype DeviceOp = Wrote(at: nat, bytes: seq<byte>) | Flushed

  /** The writes of `ops` lie inside a disk of `size` bytes. */
  ghost predicate FitsDisk(ops: seq<DeviceOp>, size: nat) {
    forall k :: 0 <= k < |ops| ==> ops[k].Wrote? ==> ops[k].at + |ops[k].bytes| <= size
  }

  /** What a reader sees after `ops`, starting from `initial`. */
  ghost function Visible(initial: seq<byte>, ops: seq<DeviceOp>): (d: seq<byte>)
    requires FitsDisk(ops, |initial|)
    ensures |d| == |initial|
  {
    if ops == [] then initial
    else
      var before := Visible(initial, ops[..|ops| - 1]);
      match ops[|ops| - 1]
      case Flushed => before
      case Wrote(at, bytes) => Splice(before, at, bytes)
  }

  /** What the last completed flush made durable. */
  ghost function Durable(initial: seq<byte>, ops: seq<DeviceOp>): (d: seq<byte>)
    requires FitsDisk(ops, |initial|)
    ensures |d| == |initial|
  {
    if ops == [] then initial
    else if ops[|ops| - 1].Flushed? then Visible(initial, ops)
    else Durable(initial, ops[..|ops| - 1])
  }

  /** Byte `i` was written since the last completed flush. */
  ghost predicate Unflushed(ops: seq<DeviceOp>, i: nat) {
    ops != [] &&
    match ops[|ops| - 1]
    case Flushed => false
    case Wrote(at, bytes) => at <= i < at + |bytes| || Unflushed(ops[..|ops| - 1], i)
  }

  /** A possible disk after power is lost: bytes not written since the last flush are durable,
      every other byte may hold anything. */
  ghost predicate CrashImage(initial: seq<byte>, ops: seq<DeviceOp>, image: seq<byte>)
    requires FitsDisk(ops, |initial|)
  {
    && |image| == |initial|
    && forall i :: 0 <= i < |image| && !Unflushed(ops, i) ==> image[i] == Durable(initial, ops)[i]
  }

  ghost predicate OpWithin(op: DeviceOp, lo: nat, hi: nat) {
    op.Wrote? ==> lo <= op.at && op.at + |op.bytes| <= hi
  }

  /** `later` continues `earlier` with operations that write only bytes of `lo..hi`. */
  ghost predicate WroteOnly(earlier: seq<DeviceOp>, later: seq<DeviceOp>, lo: nat, hi: nat) {
    && earlier <= later
    && forall k :: |earlier| <= k < |later| ==> OpWithin(later[k], lo, hi)
  }

  lemma WroteOnlyTransitive(a: seq<DeviceOp>, b: seq<DeviceOp>, c: seq<DeviceOp>, lo: nat, hi: nat)
    requires WroteOnly(a, b, lo, hi) && WroteOnly(b, c, lo, hi)
    ensures WroteOnly(a, c, lo, hi)
  {
  }

  lemma WroteOnlyWidens(a: seq<DeviceOp>, b: seq<DeviceOp>, lo: nat, hi: nat, lo': nat, hi': nat)
    requires WroteOnly(a, b, lo, hi) && lo' <= lo && hi <= hi'
    ensures WroteOnly(a, b, lo', hi')
  {
  }

  /** What was written since `earlier` is on the disk; no later write has covered it. */
  ghost predicate AllLanded(earlier: seq<DeviceOp>, later: seq<DeviceOp>, disk: seq<byte>) {
    forall k :: |earlier| <= k < |later| && later[k].Wrote? ==>
      later[k].at + |later[k].bytes| <= |disk| && disk[later[k].at..later[k].at + |later[k].bytes|] == later[k].bytes
  }

  lemma LandedExtended(earlier: seq<DeviceOp>, later: seq<DeviceOp>, disk: seq<byte>, lo: nat, at: nat, bytes: seq<byte>)
    requires AllLanded(earlier, later, disk) && WroteOnly(earlier, later, lo, at) && at + |bytes| <= |disk|
    ensures AllLanded(earlier, later + [Wrote(at, bytes)], Splice(disk, at, bytes))
  {
    var later', disk' := later + [Wrote(at, bytes)], Splice(disk, at, bytes);
    forall k | |earlier| <= k < |later'| && later'[k].Wrote?
      ensures later'[k].at + |later'[k].bytes| <= |disk'| && disk'[later'[k].at..later'[k].at + |later'[k].bytes|] == later'[k].bytes
    {
      if k < |later| {
        assert OpWithin(later[k], lo, at);
        SpliceAround(disk, at, bytes, later[k].at, later[k].at + |later[k].bytes|);
      }
    }
  }

  /** Bytes outside the written range are what they were. */
  lemma {:induction false} OutsideUnchanged(initial: seq<byte>, earlier: seq<DeviceOp>, later: seq<DeviceOp>,
                                            lo: nat, hi: nat, i: nat)
    requires FitsDisk(later, |initial|) && WroteOnly(earlier, later, lo, hi)
    requires i < |initial| && !(lo <= i < hi)
    ensures FitsDisk(earlier, |initial|)
    ensures Visible(initial, later)[i] == Visible(initial, earlier)[i]
    decreases |later|
  {
    assert forall k :: 0 <= k < |earlier| ==> earlier[k] == later[k];
    if |later| == |earlier| {
      assert later == earlier;
    } else {
      var shorter := later[..|later| - 1];
      assert forall k :: |earlier| <= k < |shorter| ==> shorter[k] == later[k];
      assert earlier <= shorter;
      OutsideUnchanged(initial, earlier, shorter, lo, hi, i);
      assert OpWithin(later[|later| - 1], lo, hi);
    }
  }

  /** After a completed flush, operations confined to `lo..hi` leave every other byte durable:
      at any later point, every crash image agrees outside `lo..hi` with the flushed disk. */
  lemma {:induction false} CrashOutsideUnchanged(initial: seq<byte>, synced: seq<DeviceOp>, later: seq<DeviceOp>,
                                                 lo: nat, hi: nat, i: nat)
    requires synced != [] && synced[|synced| - 1].Flushed?
    requires FitsDisk(later, |initial|) && WroteOnly(synced, later, lo, hi)
    requires i < |initial| && !(lo <= i < hi)
    ensures FitsDisk(synced, |initial|)
    ensures !Unflushed(later, i) && Durable(initial, later)[i] == Visible(initial, synced)[i]
    decreases |later|
  {
    assert forall k :: 0 <= k < |synced| ==> synced[k] == later[k];
    if |later| == |synced| {
      assert later == synced;
    } else {
      var shorter := later[..|later| - 1];
      assert forall k :: |synced| <= k < |shorter| ==> shorter[k] == later[k];
      assert synced <= shorter;
      CrashOutsideUnchanged(initial, synced, shorter, lo, hi, i);
      assert OpWithin(later[|later| - 1], lo, hi);
      OutsideUnchanged(initial, synced, later, lo, hi, i);
    }
  }

  /** The disk when, of the writes since the last flush, only those marked `kept` survive. */
  ghost function AfterLosing(initial: seq<byte>, ops: seq<DeviceOp>, kept: seq<bool>): (d: seq<byte>)
    requires FitsDisk(ops, |initial|) && |kept| == |ops|
    ensures |d| == |initial|
  {
    if ops == [] then initial
    else
      var n := |ops| - 1;
      match ops[n]
      case Flushed => Visible(initial, ops)
      case Wrote(at, bytes) =>
        var before := AfterLosing(initial, ops[..n], kept[..n]);
        if kept[n] then Splice(before, at, bytes) else before
  }

  /** Losing any subset of the unflushed writes gives a crash image. */
  lemma {:induction false} LostWritesGiveCrashImage(initial: seq<byte>, ops: seq<DeviceOp>, kept: seq<bool>)
    requires FitsDisk(ops, |initial|) && |kept| == |ops|
    ensures CrashImage(initial, ops, AfterLosing(initial, ops, kept))
  {
    if ops != [] && ops[|ops| - 1].Wrote? {
      var n := |ops| - 1;
      LostWritesGiveCrashImage(initial, ops[..n], kept[..n]);
    }
  }

  /** How often the outside has said no: commands not completed, buffers not granted. */
  datatype Refusals = Refusals(commands: nat, buffers: nat)
  {
    predicate UpTo(later: Refusals) {
      commands <= later.commands && buffers <= later.buffers
    }
  }

  /** What the kernel does not control: whether the hardware completes a command with status 0, and
      whether physical memory has a DMA buffer left. Every refusal is counted. */
  class Environment {
    ghost var refused: Refusals

    constructor ()
      ensures refused == Refusals(0, 0)
    {
      refused := Refusals(0, 0);
    }

    method CommandCompletes() returns (ok: bool)
      modifies this
      ensures refused == if ok then old(refused) else old(refused).(commands := old(refused).commands + 1)
    {
      ok := *;
      if !ok {
        refused := refused.(commands := refused.commands + 1);
      }
    }

    method BufferGranted() returns (ok: bool)
      modifies this
      ensures refused == if ok then old(refused) else old(refused).(buffers := old(refused).buffers + 1)
    {
      ok := *;
      if !ok {
        refused := refused.(buffers := refused.buffers + 1);
      }
    }

    /** A zeroed DMA buffer of `size` bytes, or `null` when physical memory has run out. */
    method AllocDma(size: nat) returns (buf: array?<byte>)
      modifies this
      ensures buf != null ==> fresh(buf) && buf.Length == size && buf[..] == Zeros(size)
      ensures buf == null <==> size == 0 || refused != old(refused)
      ensures refused == if buf == null && size > 0 then old(refused).(buffers := old(refused).buffers + 1) else old(refused)
    {
      if size == 0 {
        return null;
      }
      var granted := BufferGranted();
      if !granted {
        return null;
      }
      buf := new byte[size](_ => 0);
    }
  }

  class RamDisk {
    const env: Environment
    var data: seq<byte>
    const blockSize: nat
    const totalBlocks: nat
    var flushCount: nat
    /** The contents the device was made with, and everything that happened since. */
    ghost const initial: seq<byte>
    ghost var trace: seq<DeviceOp>

    ghost predicate Valid()
      reads this
    {
      && blockSize > 0
      && |data| == |initial| == totalBlocks * blockSize
      && FitsDisk(trace, |initial|)
      && data == Visible(initial, trace)
    }

    constructor (totalBlocks: nat, blockSize: nat)
      requires blockSize > 0
      ensures Valid() && this.totalBlocks == totalBlocks && this.blockSize == blockSize
      ensures data == Zeros(totalBlocks * blockSize) && trace == [] && flushCount == 0 && env.refused == Refusals(0, 0)
    {
      this.data := Zeros(totalBlocks * blockSize);
      this.initial := Zeros(totalBlocks * blockSize);
      this.blockSize, this.totalBlocks, this.flushCount := blockSize, totalBlocks, 0;
      this.env := new Environment();
      this.trace := [];
    }

    /** Read `count` blocks starting at `lba` into `buf`. It succeeds unless the blocks are not on the disk or
        the device refuses; a refused command leaves the buffer unspecified. */
    method ReadBlocks(lba: nat, count: nat, buf: array<byte>) returns (ok: bool)
      requires Valid() && 0 < count <= 0xFFFF
      modifies buf, env
      ensures ok <==> lba * blockSize + count * blockSize <= |data| && env.refused == old(env.refused)
      ensures old(env.refused).UpTo(env.refused) && env.refused.buffers == old(env.refused.buffers)
      ensures ok ==> var n := if count * blockSize < buf.Length then count * blockSize else buf.Length;
                     buf[..n] == data[lba * blockSize..lba * blockSize + n] && buf[n..] == old(buf[n..])
    {
      var start, len := lba * blockSize, count * blockSize;
      if start + len > |data| {
        return false;
      }
      ok := env.CommandCompletes();
      if !ok {
        var damage := Damage(buf.Length);
        forall i | 0 <= i < buf.Length {
          buf[i] := damage[i];
        }
        return false;
      }
      var n := if len < buf.Length then len else buf.Length;
      forall i | 0 <= i < n {
        buf[i] := data[start + i];
      }
    }

    /** Write `count` blocks starting at `lba` from `buf`. It succeeds unless the blocks are not on the disk
        or the device refuses; a refused command may leave anything in the blocks it addressed. */
    method WriteBlocks(lba: nat, count: nat, buf: array<byte>) returns (ok: bool)
      requires Valid() && 0 < count <= 0xFFFF
      modifies this, env
      ensures Valid()
      ensures ok <==> lba * blockSize + count * blockSize <= |data| && env.refused == old(env.refused)
      ensures old(env.refused).UpTo(env.refused) && env.refused.buffers == old(env.refused.buffers)
      ensures flushCount == old(flushCount)
      ensures WroteOnly(old(trace), trace, lba * blockSize, (lba + count) * blockSize)
      ensures ok ==> var n := if count * blockSize < buf.Length then count * blockSize else buf.Length;
                     lba * blockSize + n <= |data| &&
                     data == Splice(old(data), lba * blockSize, buf[..n]) &&
                     trace == old(trace) + [Wrote(lba * blockSize, buf[..n])]
    {
      MulAdd(lba, count, blockSize);
      var start, len := lba * blockSize, count * blockSize;
      if start + len > |data| {
        return false;
      }
      var n := if len < buf.Length then len else buf.Length;
      ok := env.CommandCompletes();
      if ok {
        Land(start, buf[..n]);
      } else {
        var damage := Damage(len);
        Land(start, damage);
      }
    }

    /** Put `bytes` on the medium. */
    method Land(at: nat, bytes: seq<byte>)
      requires Valid() && at + |bytes| <= |data|
      modifies this
      ensures Valid() && flushCount == old(flushCount)
      ensures trace == old(trace) + [Wrote(at, bytes)]
      ensures data == Splice(old(data), at, bytes)
    {
      data := data[..at] + bytes + data[at + |bytes|..];
      trace := trace + [Wrote(at, bytes)];
      assert trace[..|trace| - 1] == old(trace);
    }

    /** Flush the device's write cache. */
    method Flush() returns (ok: bool)
      requires Valid()
      modifies this, env
      ensures ok <==> env.refused == old(env.refused)
      ensures old(env.refused).UpTo(env.refused) && env.refused.buffers == old(env.refused.buffers)
      ensures Valid() && data == old(data)
      ensures trace == if ok then old(trace) + [Flushed] else old(trace)
      ensures flushCount == old(flushCount) + if ok then 1 else 0
    {
      ok := env.CommandCompletes();
      if ok {
        flushCount := flushCount + 1;
        trace := trace + [Flushed];
        assert trace[..|trace| - 1] == old(trace);
      }
    }
  }

  /** What an unsuccessful command leaves behind: any `n` bytes. */
  method Damage(n: nat) returns (bytes: seq<byte>)
    ensures |bytes| == n
  {
    var any := Zeros(n);
    bytes :| |bytes| == |any|;
  }
}
