/** The on-disk block allocator: a bitmap with one bit per data block, cached in RAM and flushed to
    the blocks after the superblock. */
module BlockAlloc {
  import opened Bits
  import opened Bytes
  import opened Runs
  import opened RamDisks

  datatype AllocError = OutOfSpace | InvalidSize
  datatype AllocResult = Allocated(start: nat) | Refused(error: AllocError)

  // ---- The superblock ----

  const MAGIC: nat := 0x01_534F4E5648
  const VERSION: nat := 1
  const SUPERBLOCK_SIZE: nat := 4080

  datatype Superblock = Superblock(
    magic: u64, version: nat, blockSize: nat, totalBlocks: u64,
    bitmapStart: u64, bitmapBlocks: u64, tableStart: u64, tableBlocks: u64,
    dataStart: u64, dataBlocks: u64)
  {
    predicate IsValid() {
      magic == MAGIC && version == VERSION
    }

    predicate Encodable() {
      version < 0x1_0000_0000 && blockSize < 0x1_0000_0000
    }
  }

  function EncodeSuperblock(sb: Superblock): (s: seq<byte>)
    ensures |s| == SUPERBLOCK_SIZE
  {
    ToLe(sb.magic, 8) + ToLe(sb.version, 4) + ToLe(sb.blockSize, 4) + ToLe(sb.totalBlocks, 8)
    + ToLe(sb.bitmapStart, 8) + ToLe(sb.bitmapBlocks, 8) + ToLe(sb.tableStart, 8) + ToLe(sb.tableBlocks, 8)
    + ToLe(sb.dataStart, 8) + ToLe(sb.dataBlocks, 8) + Zeros(4008)
  }

  function DecodeSuperblock(s: seq<byte>): Superblock
    requires |s| >= 72
  {
    Superblock(WordAt(s, 0), FromLe(s[8..12]), FromLe(s[12..16]), WordAt(s, 16), WordAt(s, 24), WordAt(s, 32),
               WordAt(s, 40), WordAt(s, 48), WordAt(s, 56), WordAt(s, 64))
  }

  /** The fields stand little-endian at their offsets. */
  lemma SuperblockLayout(sb: Superblock, s: seq<byte>)
    requires sb.Encodable() && |s| >= SUPERBLOCK_SIZE && s[..SUPERBLOCK_SIZE] == EncodeSuperblock(sb)
    ensures FromLe(s[0..8]) == sb.magic && FromLe(s[8..12]) == sb.version && FromLe(s[12..16]) == sb.blockSize
    ensures FromLe(s[16..24]) == sb.totalBlocks && FromLe(s[24..32]) == sb.bitmapStart && FromLe(s[32..40]) == sb.bitmapBlocks
    ensures FromLe(s[40..48]) == sb.tableStart && FromLe(s[48..56]) == sb.tableBlocks
    ensures FromLe(s[56..64]) == sb.dataStart && FromLe(s[64..72]) == sb.dataBlocks
  {
    Pow256OfWords();
    var e := EncodeSuperblock(sb);
    assert s[0..8] == e[0..8] == ToLe(sb.magic, 8);
    assert s[8..12] == e[8..12] == ToLe(sb.version, 4);
    assert s[12..16] == e[12..16] == ToLe(sb.blockSize, 4);
    assert s[16..24] == e[16..24] == ToLe(sb.totalBlocks, 8);
    assert s[24..32] == e[24..32] == ToLe(sb.bitmapStart, 8);
    assert s[32..40] == e[32..40] == ToLe(sb.bitmapBlocks, 8);
    assert s[40..48] == e[40..48] == ToLe(sb.tableStart, 8);
    assert s[48..56] == e[48..56] == ToLe(sb.tableBlocks, 8);
    assert s[56..64] == e[56..64] == ToLe(sb.dataStart, 8);
    assert s[64..72] == e[64..72] == ToLe(sb.dataBlocks, 8);
    FromLeToLe(sb.magic, 8);
    FromLeToLe(sb.version, 4);
    FromLeToLe(sb.blockSize, 4);
    FromLeToLe(sb.totalBlocks, 8);
    FromLeToLe(sb.bitmapStart, 8);
    FromLeToLe(sb.bitmapBlocks, 8);
    FromLeToLe(sb.tableStart, 8);
    FromLeToLe(sb.tableBlocks, 8);
    FromLeToLe(sb.dataStart, 8);
    FromLeToLe(sb.dataBlocks, 8);
  }

  lemma DecodeEncodedSuperblock(sb: Superblock, s: seq<byte>)
    requires sb.Encodable() && |s| >= SUPERBLOCK_SIZE && s[..SUPERBLOCK_SIZE] == EncodeSuperblock(sb)
    ensures DecodeSuperblock(s) == sb
  {
    SuperblockLayout(sb, s);
    hide EncodeSuperblock, FromLe;
  }

  /** Where `format` puts things on a namespace of `total` blocks of `blockSize` bytes. */
  function Layout(total: nat, blockSize: nat): Superblock
    requires 2 <= total < 0x1_0000_0000_0000_0000 && 0 < blockSize < 0x1_0000_0000
  {
    var bitsPerBlock := blockSize * 8;
    var bitmapBlocks := (total - 2 + bitsPerBlock - 1) / bitsPerBlock;
    BitmapBlocksBounded(total - 2, bitsPerBlock);
    var dataStart := 1 + bitmapBlocks + 1;
    Superblock(MAGIC, VERSION, blockSize, total, 1, bitmapBlocks, 1 + bitmapBlocks, 1, dataStart,
               if total > dataStart then total - dataStart else 0)
  }

  lemma BitmapBlocksBounded(n: nat, per: nat)
    requires per >= 1
    ensures (n + per - 1) / per <= n
    ensures ((n + per - 1) / per) * per >= n
  {
    var q := (n + per - 1) / per;
    assert n + per - 1 == q * per + (n + per - 1) % per;
    if q > n {
      MulMono(n + 1, q, per);
      MulAdd(n, 1, per);
      MulMono(1, per, n);
    }
  }

  /** The bitmap region always has room for one bit per data block, and data never touches
      superblock, bitmap or table. */
  lemma LayoutFits(total: nat, blockSize: nat)
    requires 2 <= total < 0x1_0000_0000_0000_0000 && 0 < blockSize < 0x1_0000_0000
    ensures var sb := Layout(total, blockSize);
            && sb.bitmapStart == 1 && sb.bitmapStart + sb.bitmapBlocks == sb.tableStart
            && sb.tableBlocks == 1 && sb.tableStart + sb.tableBlocks == sb.dataStart
            && sb.dataStart + sb.dataBlocks == total
            && sb.dataBlocks <= sb.bitmapBlocks * (blockSize * 8)
            && (blockSize % 8 == 0 ==> 8 * ((sb.dataBlocks + 63) / 64) <= sb.bitmapBlocks * blockSize)
  {
    var sb := Layout(total, blockSize);
    BitmapBlocksBounded(total - 2, blockSize * 8);
    if blockSize % 8 == 0 {
      WordsFit(sb.dataBlocks, sb.bitmapBlocks, blockSize);
    }
  }

  /** A region with a bit per block has room for their words, when blocks hold whole words. */
  lemma WordsFit(dataBlocks: nat, bitmapBlocks: nat, blockSize: nat)
    requires dataBlocks <= bitmapBlocks * (blockSize * 8) && blockSize % 8 == 0
    ensures 8 * ((dataBlocks + 63) / 64) <= bitmapBlocks * blockSize
  {
    var k := blockSize / 8;
    assert blockSize == 8 * k;
    assert bitmapBlocks * blockSize == 8 * (bitmapBlocks * k) && bitmapBlocks * (blockSize * 8) == 64 * (bitmapBlocks * k);
  }

  // ---- Bitmap on disk ----

  /** Byte `j` of the bitmap region: the words in little-endian order, then zeros. */
  function RegionByte(words: seq<u64>, j: nat): byte {
    if j / 8 < |words| then ToLe(words[j / 8], 8)[j % 8] else 0
  }

  /** The first `n` bytes of the region at `at` are those of the bitmap. */
  ghost predicate RegionStored(disk: seq<byte>, at: nat, words: seq<u64>, n: nat) {
    && (n > 0 ==> at + n <= |disk|)
    && forall j :: 0 <= j < n ==> disk[at + j] == RegionByte(words, j)
  }

  /** The words are stored little-endian from byte `at` on. */
  ghost predicate WordsOnDisk(disk: seq<byte>, at: nat, words: seq<u64>) {
    RegionStored(disk, at, words, 8 * |words|)
  }

  /** What `load` reads back, word by word, when `onDisk` bytes of bitmap are read. */
  ghost predicate WordsReadBack(disk: seq<byte>, at: nat, onDisk: nat, words: seq<u64>) {
    forall w :: 0 <= w < |words| ==>
      if 8 * w + 8 <= onDisk then at + 8 * w + 8 <= |disk| && words[w] == WordAt(disk, at + 8 * w)
      else words[w] == 0
  }

  /** Reading a flushed bitmap gives back exactly the words that were flushed. */
  lemma ReadFlushedWords(disk: seq<byte>, at: nat, onDisk: nat, words: seq<u64>, read: seq<u64>)
    requires WordsOnDisk(disk, at, words) && WordsReadBack(disk, at, onDisk, read)
    requires |read| == |words| && 8 * |words| <= onDisk
    ensures read == words
  {
    forall w | 0 <= w < |words|
      ensures read[w] == words[w]
    {
      StoredWord(disk, at, words, w);
    }
  }

  lemma StoredWord(disk: seq<byte>, at: nat, words: seq<u64>, w: nat)
    requires WordsOnDisk(disk, at, words) && w < |words|
    ensures at + 8 * w + 8 <= |disk| && WordAt(disk, at + 8 * w) == words[w]
  {
    Pow256OfWords();
    var bytes, le := disk[at + 8 * w..at + 8 * w + 8], ToLe(words[w], 8);
    forall i | 0 <= i < 8
      ensures bytes[i] == le[i]
    {
      assert disk[at + (8 * w + i)] == RegionByte(words, 8 * w + i);
    }
    assert bytes == le;
    FromLeToLe(words[w], 8);
  }

  // ---- Counting ----

  function OnesIn(words: seq<u64>): nat {
    if words == [] then 0 else OnesIn(words[..|words| - 1]) + CountOnes(words[|words| - 1])
  }

  ghost function BitsOf(a: nat, n: nat): set<nat> {
    set k: nat | k < n && Bit(a, k)
  }

  /** Every index moved up by `d`. */
  ghost function Shifted(s: set<nat>, d: nat): set<nat> {
    set k | k in s :: k + d
  }

  lemma InShifted(s: set<nat>, d: nat)
    ensures forall i: nat :: i in Shifted(s, d) <==> i >= d && i - d in s
  {
    forall i: nat
      ensures i in Shifted(s, d) <==> i >= d && i - d in s
    {
      if i >= d && i - d in s {
        assert (i - d) + d in Shifted(s, d);
      }
    }
  }

  lemma {:induction false} ShiftSize(s: set<nat>, d: nat)
    ensures |Shifted(s, d)| == |s|
  {
    hide Shifted;
    InShifted(s, d);
    if s == {} {
      assert Shifted(s, d) == {};
    } else {
      var x :| x in s;
      ShiftSize(s - {x}, d);
      InShifted(s - {x}, d);
      assert Shifted(s, d) == Shifted(s - {x}, d) + {x + d};
      assert s == (s - {x}) + {x};
    }
  }

  lemma DisjointSize(a: set<nat>, b: set<nat>, c: set<nat>)
    requires a == b + c && b !! c
    ensures |a| == |b| + |c|
  {
  }

  lemma LowAndHighBits(a: nat, n: nat)
    requires n > 0
    ensures BitsOf(a, n) == (if a % 2 == 1 then {0} else {}) + Shifted(BitsOf(a / 2, n - 1), 1)
    ensures 0 !in Shifted(BitsOf(a / 2, n - 1), 1)
  {
    hide Shifted;
    InShifted(BitsOf(a / 2, n - 1), 1);
    forall k: nat | 0 < k < n
      ensures Bit(a, k) == Bit(a / 2, k - 1)
    {
    }
  }

  lemma {:induction false} CountOnesCounts(a: nat, n: nat)
    requires a < Pow2(n)
    ensures |BitsOf(a, n)| == CountOnes(a)
  {
    hide Shifted;
    if a == 0 {
      forall k: nat | k < n ensures !Bit(a, k) { BitZero(k); }
      assert BitsOf(a, n) == {};
    } else {
      CountOnesCounts(a / 2, n - 1);
      var high := BitsOf(a / 2, n - 1);
      var low: set<nat> := if a % 2 == 1 then {0} else {};
      ShiftSize(high, 1);
      LowAndHighBits(a, n);
      DisjointSize(BitsOf(a, n), low, Shifted(high, 1));
    }
  }

  /** Summing `count_ones` over the words counts the members of the bitmap. */
  lemma {:induction false} OnesCountMembers(words: seq<u64>)
    ensures OnesIn(words) == |Members(words)|
  {
    hide Shifted, Members, BitsOf, CountOnes, Pow2;
    if words == [] {
      NoMembers();
    } else {
      var n := |words| - 1;
      OnesCountMembers(words[..n]);
      Pow2Of64();
      CountOnesCounts(words[n], 64);
      var last := BitsOf(words[n], 64);
      ShiftSize(last, 64 * n);
      OneMoreWord(words);
      DisjointSize(Members(words), Members(words[..n]), Shifted(last, 64 * n));
    }
  }

  lemma NoMembers()
    ensures Members([]) == {}
  {
  }

  lemma OneMoreWord(words: seq<u64>)
    requires words != []
    ensures var n := |words| - 1;
            && Members(words) == Members(words[..n]) + Shifted(BitsOf(words[n], 64), 64 * n)
            && Members(words[..n]) !! Shifted(BitsOf(words[n], 64), 64 * n)
  {
    hide Shifted, Bit;
    var n := |words| - 1;
    InShifted(BitsOf(words[n], 64), 64 * n);
    forall i: nat
      ensures i in Members(words) <==> i in Members(words[..n]) || i in Shifted(BitsOf(words[n], 64), 64 * n)
    {
      if 64 * n <= i < 64 * |words| {
        assert i / 64 == n && i % 64 == i - 64 * n;
      } else if i < 64 * n {
        assert i / 64 < n;
      }
    }
  }

  // ---- Loading and formatting ----

  /** A freshly formatted disk: the superblock of the layout, then zeroed bitmap and table. */
  ghost predicate Formatted(disk: seq<byte>, total: nat, blockSize: nat)
    requires 2 <= total < 0x1_0000_0000_0000_0000 && SUPERBLOCK_SIZE <= blockSize < 0x1_0000_0000
  {
    && blockSize <= |disk|
    && disk[..SUPERBLOCK_SIZE] == EncodeSuperblock(Layout(total, blockSize))
    && ZeroBlocks(disk, Layout(total, blockSize).bitmapBlocks + 1, blockSize)
  }

  /** The `n` blocks after the superblock's are zero. */
  ghost predicate ZeroBlocks(disk: seq<byte>, n: nat, blockSize: nat) {
    && (n > 0 ==> (1 + n) * blockSize <= |disk|)
    && forall i :: blockSize <= i < (1 + n) * blockSize && i < |disk| ==> disk[i] == 0
  }

  lemma NoZeroBlocks(disk: seq<byte>, blockSize: nat)
    ensures ZeroBlocks(disk, 0, blockSize)
  {
  }

  lemma ZeroBlockWritten(disk: seq<byte>, disk': seq<byte>, i: nat, blockSize: nat)
    requires blockSize > 0 && (1 + i) * blockSize + blockSize <= |disk|
    requires disk' == Splice(disk, (1 + i) * blockSize, Zeros(blockSize)) && ZeroBlocks(disk, i, blockSize)
    ensures ZeroBlocks(disk', i + 1, blockSize) && disk'[..blockSize] == disk[..blockSize]
  {
    MulAdd(1 + i, 1, blockSize);
    MulMono(1, 1 + i, blockSize);
  }

  /** In-memory bitmap and free count are what the superblock and bitmap region of `disk` say. */
  ghost predicate LoadedFrom(bitmap: seq<u64>, freeCount: nat, disk: seq<byte>, blockSize: nat)
    requires SUPERBLOCK_SIZE <= blockSize <= |disk|
  {
    var sb := DecodeSuperblock(disk[..blockSize]);
    && sb.IsValid()
    && |bitmap| == (sb.dataBlocks + 63) / 64
    && WordsReadBack(disk, sb.bitmapStart * blockSize, sb.bitmapBlocks * blockSize, bitmap)
    && (OnesIn(bitmap) <= sb.dataBlocks ==> freeCount == sb.dataBlocks - OnesIn(bitmap))
  }

  /** A valid superblock, and the bitmap it speaks of, are on the disk. */
  ghost predicate Loadable(disk: seq<byte>, blockSize: nat)
    requires SUPERBLOCK_SIZE <= blockSize
  {
    && blockSize <= |disk|
    && var sb := DecodeSuperblock(disk[..blockSize]);
    sb.IsValid() && RegionOnDisk(disk, sb.bitmapStart, sb.bitmapBlocks, blockSize)
  }

  ghost predicate RegionOnDisk(disk: seq<byte>, start: nat, blocks: nat, blockSize: nat) {
    blocks > 0 ==> (start + blocks) * blockSize <= |disk|
  }

  /** A block of a region that is on the disk is on the disk; if all are, the region is. */
  lemma RegionBlocks(disk: seq<byte>, start: nat, blk: nat, blocks: nat, blockSize: nat)
    requires blk < blocks
    ensures RegionOnDisk(disk, start, blocks, blockSize) ==> (start + blk) * blockSize + blockSize <= |disk|
    ensures blk == blocks - 1 && (start + blk) * blockSize + blockSize <= |disk| ==> RegionOnDisk(disk, start, blocks, blockSize)
  {
    BlockWithin(start, blk, blocks, blockSize);
  }

  /** The words of the first `blks` blocks have been read, the others are still zero. */
  ghost predicate BlocksReadBack(disk: seq<byte>, start: nat, words: seq<u64>, blks: nat, perBlock: nat) {
    forall w :: 0 <= w < |words| ==>
      if w < blks * perBlock
      then start * (8 * perBlock) + 8 * w + 8 <= |disk| && words[w] == WordAt(disk, start * (8 * perBlock) + 8 * w)
      else words[w] == 0
  }

  lemma NothingReadBack(disk: seq<byte>, start: nat, words: seq<u64>, perBlock: nat)
    requires forall w :: 0 <= w < |words| ==> words[w] == 0
    ensures BlocksReadBack(disk, start, words, 0, perBlock)
  {
    assert 0 * perBlock == 0;
  }

  lemma BlockReadBack(disk: seq<byte>, start: nat, before: seq<u64>, after: seq<u64>, blk: nat, perBlock: nat, src: seq<byte>)
    requires |src| == 8 * perBlock && (start + blk) * |src| + |src| <= |disk|
    requires src == disk[(start + blk) * |src|..(start + blk) * |src| + |src|]
    requires BlocksReadBack(disk, start, before, blk, perBlock) && |before| == |after|
    requires forall w :: 0 <= w < |after| ==>
      after[w] == if blk * perBlock <= w < blk * perBlock + perBlock then WordAt(src, 8 * (w - blk * perBlock)) else before[w]
    ensures BlocksReadBack(disk, start, after, blk + 1, perBlock)
  {
    var at, first := start * |src|, blk * perBlock;
    MulAdd(start, blk, |src|);
    WordOffset(blk, perBlock, |src|);
    assert (start + blk) * |src| == at + 8 * first;
    assert (blk + 1) * perBlock == first + perBlock;
    forall w | 0 <= w < |after|
      ensures if w < first + perBlock then at + 8 * w + 8 <= |disk| && after[w] == WordAt(disk, at + 8 * w)
              else after[w] == 0
    {
      if first <= w < first + perBlock {
        var o := 8 * (w - first);
        SliceOfSlice(disk, at + 8 * first, at + 8 * first + |src|, o, o + 8);
        assert src[o..o + 8] == disk[at + 8 * w..at + 8 * w + 8];
      }
    }
  }

  lemma AllBlocksReadBack(disk: seq<byte>, start: nat, words: seq<u64>, blocks: nat, perBlock: nat)
    requires BlocksReadBack(disk, start, words, blocks, perBlock)
    ensures WordsReadBack(disk, start * (8 * perBlock), blocks * (8 * perBlock), words)
  {
    assert blocks * (8 * perBlock) == 8 * (blocks * perBlock);
    forall w | 0 <= w < |words|
      ensures w < blocks * perBlock <==> 8 * w + 8 <= blocks * (8 * perBlock)
    {
    }
  }

  // ---- The allocator ----

  class BlockAllocator {
    var bitmap: seq<u64>
    const dataBlockCount: nat
    const dataStartLba: nat
    const bitmapStartLba: nat
    const bitmapOnDiskBlocks: nat
    const blockSize: nat
    var freeCount: nat
    var dirty: bool

    ghost predicate Valid()
      reads this
    {
      && dataBlockCount <= 64 * |bitmap| < dataBlockCount + 64
      && Members(bitmap) <= Range(0, dataBlockCount)
      && freeCount == dataBlockCount - |Members(bitmap)|
      && blockSize > 0 && blockSize % 8 == 0
      && 8 * |bitmap| <= bitmapOnDiskBlocks * blockSize
    }

    /** The blocks in use. */
    ghost function Used(): set<nat>
      reads this
    {
      Members(bitmap)
    }

    constructor (bitmap: seq<u64>, dataBlockCount: nat, dataStartLba: nat, bitmapStartLba: nat,
                 bitmapOnDiskBlocks: nat, blockSize: nat, freeCount: nat)
      ensures this.bitmap == bitmap && this.dataBlockCount == dataBlockCount && this.dataStartLba == dataStartLba
      ensures this.bitmapStartLba == bitmapStartLba && this.bitmapOnDiskBlocks == bitmapOnDiskBlocks
      ensures this.blockSize == blockSize && this.freeCount == freeCount && !dirty
    {
      this.bitmap, this.dataBlockCount, this.dataStartLba := bitmap, dataBlockCount, dataStartLba;
      this.bitmapStartLba, this.bitmapOnDiskBlocks := bitmapStartLba, bitmapOnDiskBlocks;
      this.blockSize, this.freeCount, this.dirty := blockSize, freeCount, false;
    }

    /** Allocate `count` contiguous blocks: the lowest free run, or an error exactly when none exists. */
    method Alloc(count: nat) returns (r: AllocResult)
      requires Valid()
      modifies this`bitmap, this`freeCount, this`dirty
      ensures Valid()
      ensures count == 0 <==> r == Refused(InvalidSize)
      ensures r.Allocated? ==>
                && LowestRun(old(Used()), dataBlockCount, count, 1, r.start)
                && Used() == old(Used()) + Range(r.start, count)
                && freeCount == old(freeCount) - count && dirty
      ensures r == Refused(OutOfSpace) ==> NoRun(old(Used()), dataBlockCount, count, 1)
      ensures r.Refused? ==> bitmap == old(bitmap) && freeCount == old(freeCount) && dirty == old(dirty)
    {
      if count == 0 {
        return Refused(InvalidSize);
      }
      if freeCount < count {
        NoRunWithoutSpace(Used(), dataBlockCount, count, 1);
        return Refused(OutOfSpace);
      }
      var total := dataBlockCount;
      var start := 0;
      while start + count <= total
        invariant bitmap == old(bitmap) && freeCount == old(freeCount) && dirty == old(dirty)
        invariant forall s: nat :: s < start ==> !FreeRun(Members(bitmap), s, count)
        decreases total + 1 - start
      {
        var found := true;
        var i := 0;
        while i < count
          invariant bitmap == old(bitmap) && freeCount == old(freeCount) && dirty == old(dirty)
          invariant i <= count && FreeRun(Members(bitmap), start, i)
        {
          var idx := start + i;
          var word, bit := idx / 64, idx % 64;
          TestBitIsMembership(bitmap, idx);
          if And(bitmap[word], Pow2(bit)) != 0 {
            found := false;
            break;
          }
          i := i + 1;
        }
        if found {
          MarkRun(start, count);
          return Allocated(start);
        }
        start := start + i + 1;
      }
      return Refused(OutOfSpace);
    }

    /** Set the bits of a free run. */
    method MarkRun(start: nat, count: nat)
      requires Valid() && start + count <= dataBlockCount && FreeRun(Used(), start, count)
      modifies this`bitmap, this`freeCount, this`dirty
      ensures Valid()
      ensures Used() == old(Used()) + Range(start, count)
      ensures freeCount == old(freeCount) - count && dirty
    {
      TakeRun(Used(), dataBlockCount, start, count);
      SetBits(start, count);
      freeCount := freeCount - count;
      dirty := true;
    }

    method SetBits(start: nat, count: nat)
      requires start + count <= 64 * |bitmap|
      modifies this`bitmap
      ensures |bitmap| == old(|bitmap|)
      ensures Members(bitmap) == old(Members(bitmap)) + Range(start, count)
    {
      for i := 0 to count
        invariant |bitmap| == old(|bitmap|)
        invariant Members(bitmap) == old(Members(bitmap)) + Range(start, i)
      {
        SetBit(start + i);
      }
    }

    method SetBit(idx: nat)
      requires idx < 64 * |bitmap|
      modifies this`bitmap
      ensures |bitmap| == old(|bitmap|)
      ensures Members(bitmap) == old(Members(bitmap)) + {idx}
    {
      var word, bit := idx / 64, idx % 64;
      SetBitAddsIndex(bitmap, idx);
      bitmap := bitmap[word := Or(bitmap[word], Pow2(bit))];
    }

    method ClearBit(idx: nat) returns (wasSet: bool)
      modifies this`bitmap
      ensures |bitmap| == old(|bitmap|)
      ensures Members(bitmap) == old(Members(bitmap)) - {idx}
      ensures wasSet <==> idx in old(Members(bitmap))
    {
      var word, bit := idx / 64, idx % 64;
      if word >= |bitmap| {
        return false;
      }
      TestBitIsMembership(bitmap, idx);
      wasSet := And(bitmap[word], Pow2(bit)) != 0;
      if wasSet {
        ClearBitRemovesIndex(bitmap, idx);
        bitmap := bitmap[word := And(bitmap[word], Not64(Pow2(bit)))];
      }
    }

    /** Free `count` blocks from `start` on; blocks that are not in use, or past the bitmap, are skipped. */
    method Free(start: nat, count: nat)
      requires Valid()
      modifies this`bitmap, this`freeCount, this`dirty
      ensures Valid()
      ensures Used() == old(Used()) - Range(start, count)
      ensures dirty
    {
      var freed := ClearBits(start, count);
      freeCount := freeCount + freed;
      dirty := true;
    }

    method ClearBits(start: nat, count: nat) returns (freed: nat)
      modifies this`bitmap
      ensures |bitmap| == old(|bitmap|)
      ensures Members(bitmap) == old(Members(bitmap)) - Range(start, count)
      ensures freed + |Members(bitmap)| == old(|Members(bitmap)|)
    {
      hide *;
      freed := 0;
      for i := 0 to count
        invariant |bitmap| == old(|bitmap|)
        invariant Members(bitmap) == old(Members(bitmap)) - Range(start, i)
        invariant freed + |Members(bitmap)| == old(|Members(bitmap)|)
      {
        ghost var before := Members(bitmap);
        var wasSet := ClearBit(start + i);
        OneCleared(old(Members(bitmap)), before, start, i);
        if wasSet {
          freed := freed + 1;
        }
      }
    }

    /** Copy the words of one bitmap block into the zeroed buffer. */
    method FillBlock(buf: array<byte>, wordOffset: nat, wordsPerBlock: nat)
      requires buf.Length == 8 * wordsPerBlock
      modifies buf
      ensures forall j :: 0 <= j < buf.Length ==> buf[j] == RegionByte(bitmap, 8 * wordOffset + j)
    {
      forall i | 0 <= i < buf.Length {
        buf[i] := 0;
      }
      for w := 0 to wordsPerBlock
        invariant forall j :: 0 <= j < 8 * w ==> buf[j] == RegionByte(bitmap, 8 * wordOffset + j)
        invariant forall j :: 8 * w <= j < buf.Length ==> buf[j] == 0
      {
        if wordOffset + w < |bitmap| {
          var bytes := ToLe(bitmap[wordOffset + w], 8);
          var off := w * 8;
          forall i | 0 <= i < 8 {
            buf[off + i] := bytes[i];
          }
        }
      }
    }

    /** Rebuild the allocator from a formatted namespace; `null` exactly when it is not formatted or
        something was refused. */
    static method Load(dev: RamDisk) returns (r: BlockAllocator?)
      requires dev.Valid() && dev.blockSize >= SUPERBLOCK_SIZE && dev.blockSize % 8 == 0
      modifies dev.env
      ensures r != null <==> Loadable(dev.data, dev.blockSize) && dev.env.refused == old(dev.env.refused)
      ensures old(dev.env.refused).UpTo(dev.env.refused)
      ensures r != null ==> fresh(r) && dev.blockSize <= |dev.data| && !r.dirty
      ensures r != null ==> LoadedFrom(r.bitmap, r.freeCount, dev.data, dev.blockSize)
      ensures r != null ==> var sb := DecodeSuperblock(dev.data[..dev.blockSize]);
                && r.dataBlockCount == sb.dataBlocks && r.dataStartLba == sb.dataStart
                && r.bitmapStartLba == sb.bitmapStart && r.bitmapOnDiskBlocks == sb.bitmapBlocks
                && r.blockSize == dev.blockSize
    {
      var blockSize := dev.blockSize;
      var buf := dev.env.AllocDma(blockSize);
      if buf == null {
        return null;
      }
      var ok := dev.ReadBlocks(0, 1, buf);
      if !ok {
        return null;
      }
      assert buf[..blockSize] == buf[..] == dev.data[..blockSize];
      var sb := DecodeSuperblock(buf[..]);
      if !sb.IsValid() {
        return null;
      }
      var bitmap;
      bitmap, ok := ReadBitmap(dev, sb);
      if !ok {
        return null;
      }
      var freeCount := CountFree(bitmap, sb.dataBlocks);
      r := new BlockAllocator(bitmap, sb.dataBlocks, sb.dataStart, sb.bitmapStart, sb.bitmapBlocks, blockSize, freeCount);
    }

    /** Read the bitmap region into memory, block by block. */
    static method ReadBitmap(dev: RamDisk, sb: Superblock) returns (bitmap: seq<u64>, ok: bool)
      requires dev.Valid() && dev.blockSize % 8 == 0
      modifies dev.env
      ensures ok <==> RegionOnDisk(dev.data, sb.bitmapStart, sb.bitmapBlocks, dev.blockSize) && dev.env.refused == old(dev.env.refused)
      ensures old(dev.env.refused).UpTo(dev.env.refused)
      ensures ok ==> |bitmap| == (sb.dataBlocks + 63) / 64
      ensures ok ==> WordsReadBack(dev.data, sb.bitmapStart * dev.blockSize, sb.bitmapBlocks * dev.blockSize, bitmap)
    {
      hide BlocksReadBack, WordsReadBack, WordAt, FitsDisk, Visible;
      bitmap := seq((sb.dataBlocks + 63) / 64, _ => 0);
      NothingReadBack(dev.data, sb.bitmapStart, bitmap, dev.blockSize / 8);
      var bitmapBuf := dev.env.AllocDma(dev.blockSize);
      if bitmapBuf == null {
        return bitmap, false;
      }
      var wordsPerBlock := dev.blockSize / 8;
      for blk := 0 to sb.bitmapBlocks
        invariant |bitmap| == (sb.dataBlocks + 63) / 64
        invariant BlocksReadBack(dev.data, sb.bitmapStart, bitmap, blk, wordsPerBlock)
        invariant dev.env.refused == old(dev.env.refused)
        invariant blk == sb.bitmapBlocks ==> RegionOnDisk(dev.data, sb.bitmapStart, sb.bitmapBlocks, dev.blockSize)
      {
        RegionBlocks(dev.data, sb.bitmapStart, blk, sb.bitmapBlocks, dev.blockSize);
        ok := dev.ReadBlocks(sb.bitmapStart + blk, 1, bitmapBuf);
        if !ok {
          return bitmap, false;
        }
        assert bitmapBuf[..dev.blockSize] == bitmapBuf[..];
        ghost var before := bitmap;
        bitmap := WordsOfBlock(bitmap, bitmapBuf[..], blk * wordsPerBlock, wordsPerBlock);
        BlockReadBack(dev.data, sb.bitmapStart, before, bitmap, blk, wordsPerBlock, bitmapBuf[..]);
      }
      AllBlocksReadBack(dev.data, sb.bitmapStart, bitmap, sb.bitmapBlocks, wordsPerBlock);
      return bitmap, true;
    }

    /** Overwrite the words that one block of the region holds. */
    static method WordsOfBlock(words: seq<u64>, src: seq<byte>, wordOffset: nat, wordsPerBlock: nat) returns (r: seq<u64>)
      requires |src| == 8 * wordsPerBlock
      ensures |r| == |words|
      ensures forall w :: 0 <= w < |words| ==>
        r[w] == if wordOffset <= w < wordOffset + wordsPerBlock then WordAt(src, 8 * (w - wordOffset)) else words[w]
    {
      r := words;
      for w := 0 to wordsPerBlock
        invariant |r| == |words|
        invariant forall k :: 0 <= k < |words| ==>
          r[k] == if wordOffset <= k < wordOffset + w then WordAt(src, 8 * (k - wordOffset)) else words[k]
      {
        if wordOffset + w < |words| {
          var off := w * 8;
          r := r[wordOffset + w := WordAt(src, off)];
        }
      }
    }

    /** Count the free blocks, word by word; the sum wraps like the machine's. */
    static method CountFree(bitmap: seq<u64>, dataBlocks: u64) returns (freeCount: nat)
      requires |bitmap| == (dataBlocks + 63) / 64
      ensures OnesIn(bitmap) <= dataBlocks ==> freeCount == dataBlocks - OnesIn(bitmap)
    {
      var sum := 0;
      for i := 0 to |bitmap|
        invariant sum == (if i < |bitmap| then 64 * i else dataBlocks) - OnesIn(bitmap[..i])
      {
        var rem := dataBlocks % 64;
        var validBits := if i == |bitmap| - 1 then (if rem == 0 then 64 else rem) else 64;
        sum := sum + validBits - CountOnes(bitmap[i]);
        assert bitmap[..i + 1][..i] == bitmap[..i];
      }
      assert bitmap[..|bitmap|] == bitmap;
      freeCount := sum % 0x1_0000_0000_0000_0000;
    }

    /** Lay out a blank namespace: superblock, zeroed bitmap, zeroed file table. */
    static method Format(dev: RamDisk, totalBlocks: nat, blockSize: nat) returns (r: BlockAllocator?)
      requires dev.Valid() && dev.blockSize == blockSize
      requires SUPERBLOCK_SIZE <= blockSize < 0x1_0000_0000 && blockSize % 8 == 0
      requires 2 <= totalBlocks < 0x1_0000_0000_0000_0000
      modifies dev, dev.env
      ensures dev.Valid()
      ensures totalBlocks == dev.totalBlocks ==> (r != null <==> dev.env.refused == old(dev.env.refused))
      ensures old(dev.env.refused).UpTo(dev.env.refused)
      ensures r != null ==> fresh(r) && r.Valid() && !r.dirty && r.Used() == {}
      ensures r != null ==> Formatted(dev.data, totalBlocks, blockSize) && dev.trace != [] && dev.trace[|dev.trace| - 1].Flushed?
      ensures r != null ==> var sb := Layout(totalBlocks, blockSize);
                && r.dataBlockCount == sb.dataBlocks && r.dataStartLba == sb.dataStart
                && r.bitmapStartLba == sb.bitmapStart && r.bitmapOnDiskBlocks == sb.bitmapBlocks
                && r.blockSize == blockSize && r.bitmap == seq((sb.dataBlocks + 63) / 64, _ => 0)
    {
      hide Layout, EncodeSuperblock, FitsDisk, Visible, Members, Has, Range, ZeroBlocks;
      var sb := Layout(totalBlocks, blockSize);
      LayoutFits(totalBlocks, blockSize);
      MulMono(1, totalBlocks, blockSize);
      var ok := WriteSuperblock(dev, sb);
      if !ok {
        return null;
      }
      ok := ZeroMetadata(dev, sb.bitmapBlocks, blockSize);
      if !ok {
        return null;
      }
      ok := dev.Flush();
      if !ok {
        return null;
      }
      var bitmap := seq((sb.dataBlocks + 63) / 64, _ => 0);
      ZeroWordsEmpty(bitmap);
      r := new BlockAllocator(bitmap, sb.dataBlocks, sb.dataStart, 1, sb.bitmapBlocks, blockSize, sb.dataBlocks);
    }

    static method WriteSuperblock(dev: RamDisk, sb: Superblock) returns (ok: bool)
      requires dev.Valid() && SUPERBLOCK_SIZE <= dev.blockSize
      modifies dev, dev.env
      ensures dev.Valid()
      ensures ok <==> dev.blockSize <= |dev.data| && dev.env.refused == old(dev.env.refused)
      ensures old(dev.env.refused).UpTo(dev.env.refused)
      ensures ok ==> dev.data[..SUPERBLOCK_SIZE] == EncodeSuperblock(sb)
    {
      hide EncodeSuperblock, FitsDisk, Visible;
      var buf := dev.env.AllocDma(dev.blockSize);
      if buf == null {
        return false;
      }
      var bytes := EncodeSuperblock(sb);
      forall i | 0 <= i < |bytes| {
        buf[i] := bytes[i];
      }
      assert buf[..SUPERBLOCK_SIZE] == bytes;
      ok := dev.WriteBlocks(0, 1, buf);
      if ok {
        assert dev.data[..SUPERBLOCK_SIZE] == bytes;
      }
    }

    /** Zero the bitmap blocks and the table block after the superblock. */
    static method ZeroMetadata(dev: RamDisk, bitmapBlocks: nat, blockSize: nat) returns (ok: bool)
      requires dev.Valid() && dev.blockSize == blockSize
      modifies dev, dev.env
      ensures dev.Valid()
      ensures bitmapBlocks + 2 <= dev.totalBlocks ==> (ok <==> dev.env.refused == old(dev.env.refused))
      ensures old(dev.env.refused).UpTo(dev.env.refused) && (ok ==> dev.env.refused == old(dev.env.refused))
      ensures |dev.data| == old(|dev.data|)
      ensures ok ==> ZeroBlocks(dev.data, bitmapBlocks + 1, blockSize)
      ensures ok && blockSize <= |dev.data| ==> dev.data[..blockSize] == old(dev.data)[..blockSize]
    {
      var zeroBuf := dev.env.AllocDma(blockSize);
      if zeroBuf == null {
        return false;
      }
      NoZeroBlocks(dev.data, blockSize);
      for i := 0 to bitmapBlocks
        invariant dev.Valid() && |dev.data| == old(|dev.data|) && zeroBuf[..] == Zeros(blockSize)
        invariant ZeroBlocks(dev.data, i, blockSize) && dev.env.refused == old(dev.env.refused)
        invariant blockSize <= |dev.data| ==> dev.data[..blockSize] == old(dev.data)[..blockSize]
      {
        ok := ZeroBlock(dev, zeroBuf, i);
        if !ok {
          return false;
        }
      }
      ok := ZeroBlock(dev, zeroBuf, bitmapBlocks);
    }

    static method ZeroBlock(dev: RamDisk, zeroBuf: array<byte>, i: nat) returns (ok: bool)
      requires dev.Valid() && zeroBuf[..] == Zeros(dev.blockSize)
      requires ZeroBlocks(dev.data, i, dev.blockSize)
      modifies dev, dev.env
      ensures dev.Valid() && |dev.data| == old(|dev.data|)
      ensures i + 2 <= dev.totalBlocks ==> (ok <==> dev.env.refused == old(dev.env.refused))
      ensures old(dev.env.refused).UpTo(dev.env.refused) && (ok ==> dev.env.refused == old(dev.env.refused))
      ensures ok ==> ZeroBlocks(dev.data, i + 1, dev.blockSize)
      ensures ok && dev.blockSize <= |dev.data| ==> dev.data[..dev.blockSize] == old(dev.data)[..dev.blockSize]
    {
      BlockWithin(1, i, i + 1, dev.blockSize);
      if i + 2 <= dev.totalBlocks {
        MulMono(i + 2, dev.totalBlocks, dev.blockSize);
      }
      ok := dev.WriteBlocks(1 + i, 1, zeroBuf);
      if ok {
        assert zeroBuf[..dev.blockSize] == zeroBuf[..];
        ZeroBlockWritten(old(dev.data), dev.data, i, dev.blockSize);
      }
    }

    /** Flush the bitmap to its region if it is dirty. */
    method Flush(dev: RamDisk) returns (ok: bool)
      requires Valid() && dev.Valid() && dev.blockSize == blockSize
      modifies this`dirty, dev, dev.env
      ensures RegionOnDisk(dev.data, bitmapStartLba, bitmapOnDiskBlocks, blockSize) ==> (ok <==> dev.env.refused == old(dev.env.refused))
      ensures old(dev.env.refused).UpTo(dev.env.refused) && (ok ==> dev.env.refused == old(dev.env.refused))
      ensures Valid() && dev.Valid() && dev.flushCount == old(dev.flushCount)
      ensures WroteOnly(old(dev.trace), dev.trace,
                        bitmapStartLba * blockSize, (bitmapStartLba + bitmapOnDiskBlocks) * blockSize)
      ensures !old(dirty) ==> ok && !dirty && dev.trace == old(dev.trace) && dev.data == old(dev.data)
      ensures ok ==> !dirty
      ensures ok && old(dirty) ==> WordsOnDisk(dev.data, bitmapStartLba * blockSize, bitmap)
      ensures !ok ==> dirty
    {
      if !dirty {
        return true;
      }
      var buf := dev.env.AllocDma(blockSize);
      if buf == null {
        return false;
      }
      ok := FlushBlocks(dev, buf);
      if ok {
        dirty := false;
      }
    }

    method FlushBlocks(dev: RamDisk, buf: array<byte>) returns (ok: bool)
      requires Valid() && dev.Valid() && dev.blockSize == blockSize == buf.Length
      modifies dev, buf, dev.env
      ensures RegionOnDisk(dev.data, bitmapStartLba, bitmapOnDiskBlocks, blockSize) ==> (ok <==> dev.env.refused == old(dev.env.refused))
      ensures old(dev.env.refused).UpTo(dev.env.refused) && (ok ==> dev.env.refused == old(dev.env.refused))
      ensures dev.Valid() && dev.flushCount == old(dev.flushCount)
      ensures WroteOnly(old(dev.trace), dev.trace,
                        bitmapStartLba * blockSize, (bitmapStartLba + bitmapOnDiskBlocks) * blockSize)
      ensures ok ==> WordsOnDisk(dev.data, bitmapStartLba * blockSize, bitmap)
    {
      NoBlocksStored(dev.data, bitmapStartLba, bitmap, blockSize);
      for blk := 0 to bitmapOnDiskBlocks
        invariant dev.Valid() && dev.flushCount == old(dev.flushCount)
        invariant WroteOnly(old(dev.trace), dev.trace,
                            bitmapStartLba * blockSize, (bitmapStartLba + bitmapOnDiskBlocks) * blockSize)
        invariant BlocksStored(dev.data, bitmapStartLba, bitmap, blk, blockSize)
        invariant dev.env.refused == old(dev.env.refused) && |dev.data| == |old(dev.data)|
      {
        ok := FlushBlock(dev, buf, blk);
        if !ok {
          return false;
        }
      }
      RegionShorter(dev.data, bitmapStartLba * blockSize, bitmap, bitmapOnDiskBlocks * blockSize, 8 * |bitmap|);
      return true;
    }

    method FlushBlock(dev: RamDisk, buf: array<byte>, blk: nat) returns (ok: bool)
      requires Valid() && dev.Valid() && dev.blockSize == blockSize == buf.Length
      requires blk < bitmapOnDiskBlocks
      requires BlocksStored(dev.data, bitmapStartLba, bitmap, blk, blockSize)
      modifies dev, buf, dev.env
      ensures |dev.data| == |old(dev.data)|
      ensures RegionOnDisk(dev.data, bitmapStartLba, bitmapOnDiskBlocks, blockSize) ==> (ok <==> dev.env.refused == old(dev.env.refused))
      ensures old(dev.env.refused).UpTo(dev.env.refused) && (ok ==> dev.env.refused == old(dev.env.refused))
      ensures dev.Valid() && dev.flushCount == old(dev.flushCount)
      ensures WroteOnly(old(dev.trace), dev.trace,
                        bitmapStartLba * blockSize, (bitmapStartLba + bitmapOnDiskBlocks) * blockSize)
      ensures ok ==> BlocksStored(dev.data, bitmapStartLba, bitmap, blk + 1, blockSize)
    {
      hide RegionByte, BlocksStored, Members, Has, Range, FitsDisk, Visible, WroteOnly, Splice;
      var wordsPerBlock := blockSize / 8;
      RegionBlocks(dev.data, bitmapStartLba, blk, bitmapOnDiskBlocks, blockSize);
      FillBlock(buf, blk * wordsPerBlock, wordsPerBlock);
      ok := dev.WriteBlocks(bitmapStartLba + blk, 1, buf);
      BlockWithin(bitmapStartLba, blk, bitmapOnDiskBlocks, blockSize);
      WroteOnlyWidens(old(dev.trace), dev.trace,
                      (bitmapStartLba + blk) * blockSize, (bitmapStartLba + blk + 1) * blockSize,
                      bitmapStartLba * blockSize, (bitmapStartLba + bitmapOnDiskBlocks) * blockSize);
      if ok {
        assert buf[..blockSize] == buf[..];
        BlockStored(old(dev.data), dev.data, bitmapStartLba, bitmap, blk, wordsPerBlock, buf[..]);
      }
    }
  }

  lemma OneCleared(used: set<nat>, before: set<nat>, start: nat, i: nat)
    requires before == used - Range(start, i)
    ensures before - {start + i} == used - Range(start, i + 1)
    ensures |before - {start + i}| == |before| - (if start + i in before then 1 else 0)
  {
    assert start + i !in before ==> before - {start + i} == before;
  }

  /** The first `blks` blocks of the region that starts at block `start` are stored. */
  ghost predicate BlocksStored(disk: seq<byte>, start: nat, words: seq<u64>, blks: nat, blockSize: nat) {
    RegionStored(disk, start * blockSize, words, blks * blockSize)
  }

  lemma NoBlocksStored(disk: seq<byte>, start: nat, words: seq<u64>, blockSize: nat)
    ensures BlocksStored(disk, start, words, 0, blockSize)
  {
    assert 0 * blockSize == 0;
  }

  lemma RegionShorter(disk: seq<byte>, at: nat, words: seq<u64>, n: nat, m: nat)
    requires RegionStored(disk, at, words, n) && m <= n
    ensures RegionStored(disk, at, words, m)
  {
  }

  /** Writing the next block of the region extends what is stored. */
  lemma BlockStored(disk: seq<byte>, disk': seq<byte>, start: nat, words: seq<u64>, blk: nat,
                    perBlock: nat, image: seq<byte>)
    requires perBlock > 0 && |image| == 8 * perBlock
    requires (start + blk) * |image| + |image| <= |disk| && disk' == Splice(disk, (start + blk) * |image|, image)
    requires BlocksStored(disk, start, words, blk, |image|)
    requires forall j :: 0 <= j < |image| ==> image[j] == RegionByte(words, 8 * (blk * perBlock) + j)
    ensures BlocksStored(disk', start, words, blk + 1, |image|)
  {
    WordOffset(blk, perBlock, |image|);
    MulAdd(start, blk, |image|);
    RegionExtended(disk, disk', start * |image|, words, blk * |image|, image);
  }

  lemma RegionExtended(disk: seq<byte>, disk': seq<byte>, at: nat, words: seq<u64>, n: nat, image: seq<byte>)
    requires at + n + |image| <= |disk| && disk' == Splice(disk, at + n, image)
    requires RegionStored(disk, at, words, n) && forall j :: 0 <= j < |image| ==> image[j] == RegionByte(words, n + j)
    ensures RegionStored(disk', at, words, n + |image|)
  {
    hide RegionByte, Splice;
    forall j | 0 <= j < n + |image|
      ensures disk'[at + j] == RegionByte(words, j)
    {
      if j >= n {
        assert disk'[at + j] == disk'[at + n..at + n + |image|][j - n];
      }
    }
  }

  lemma WordOffset(blk: nat, wordsPerBlock: nat, blockSize: nat)
    requires blockSize == 8 * wordsPerBlock
    ensures 8 * (blk * wordsPerBlock) == blk * blockSize
    ensures (blk + 1) * blockSize == blk * blockSize + blockSize
  {
  }

  lemma BlockWithin(start: nat, blk: nat, blocks: nat, blockSize: nat)
    requires blk < blocks
    ensures start * blockSize <= (start + blk) * blockSize == start * blockSize + blk * blockSize
    ensures (start + blk + 1) * blockSize == (start + blk) * blockSize + blockSize
    ensures (start + blk + 1) * blockSize <= (start + blocks) * blockSize
  {
    MulAdd(start, blk, blockSize);
    MulAdd(start + blk, 1, blockSize);
    MulMono(start + blk + 1, start + blocks, blockSize);
  }
}
