/** Byte sequences: splicing, little-endian integers, and byte offsets of blocks. */
module Bytes {
  import opened Bits

  /** `d` with the bytes from `at` on replaced by `bytes`. */
  function Splice(d: seq<byte>, at: nat, bytes: seq<byte>): (r: seq<byte>)
    requires at + |bytes| <= |d|
    ensures |r| == |d|
    ensures r[at..at + |bytes|] == bytes
    ensures forall i :: 0 <= i < |d| && !(at <= i < at + |bytes|) ==> r[i] == d[i]
  {
    d[..at] + bytes + d[at + |bytes|..]
  }

  function Zeros(n: nat): (r: seq<byte>)
    ensures |r| == n && forall i :: 0 <= i < n ==> r[i] == 0
  {
    seq(n, _ => 0)
  }

  lemma SliceOfSlice<T>(s: seq<T>, a: nat, b: nat, i: nat, j: nat)
    requires a <= b <= |s| && i <= j <= b - a
    ensures s[a..b][i..j] == s[a + i..a + j]
  {
    var l, r := s[a..b][i..j], s[a + i..a + j];
    assert |l| == |r| && forall k :: 0 <= k < j - i ==> l[k] == r[k];
  }

  /** A slice beside the spliced bytes is as before. */
  lemma SpliceAround(disk: seq<byte>, p: nat, data: seq<byte>, lo: nat, hi: nat)
    requires p + |data| <= |disk| && lo <= hi <= |disk| && (hi <= p || p + |data| <= lo)
    ensures Splice(disk, p, data)[lo..hi] == disk[lo..hi]
  {
  }

  // ---- Little-endian integers ----

  function Pow256(k: nat): (r: nat)
    ensures r > 0
  {
    if k == 0 then 1 else 256 * Pow256(k - 1)
  }

  /** The low `k` bytes of `n`, least significant first (`to_le_bytes`). */
  function ToLe(n: nat, k: nat): (s: seq<byte>)
    ensures |s| == k
  {
    if k == 0 then [] else [n % 256] + ToLe(n / 256, k - 1)
  }

  function FromLe(s: seq<byte>): (n: nat)
    ensures n < Pow256(|s|)
  {
    if s == [] then 0 else s[0] + 256 * FromLe(s[1..])
  }

  lemma {:induction false} FromLeToLe(n: nat, k: nat)
    requires n < Pow256(k)
    ensures FromLe(ToLe(n, k)) == n
  {
    if k > 0 {
      FromLeToLe(n / 256, k - 1);
      assert ToLe(n, k)[1..] == ToLe(n / 256, k - 1);
    }
  }

  /** The first byte is the least significant one. */
  lemma KnownWord()
    ensures FromLe([0x78, 0x56, 0x34, 0x12]) == 0x1234_5678 && ToLe(0x1234_5678, 4) == [0x78, 0x56, 0x34, 0x12]
  {
    assert FromLe([0x12]) == 0x12;
    assert FromLe([0x34, 0x12]) == 0x1234;
    assert FromLe([0x56, 0x34, 0x12]) == 0x12_3456;
    assert ToLe(0x12, 1) == [0x12];
    assert ToLe(0x1234, 2) == [0x34, 0x12];
    assert ToLe(0x12_3456, 3) == [0x56, 0x34, 0x12];
  }

  lemma Pow256OfWords()
    ensures Pow256(4) == 0x1_0000_0000
    ensures Pow256(8) == 0x1_0000_0000_0000_0000
  {
    assert Pow256(2) == 0x1_0000;
    assert Pow256(4) == 0x1_0000_0000;
    assert Pow256(6) == 0x1_0000_0000_0000;
  }

  /** A machine word read from eight bytes. */
  function WordAt(d: seq<byte>, at: nat): u64
    requires at + 8 <= |d|
  {
    Pow256OfWords();
    FromLe(d[at..at + 8])
  }

  // ---- Block arithmetic ----

  /** The bytes in `n` blocks: `n * size`, by counting, so that proofs about positions stay linear. */
  function Blocks(n: nat, size: nat): nat {
    if n == 0 then 0 else Blocks(n - 1, size) + size
  }

  /** The block that byte `x` falls into: `x / size`, by counting. */
  function BlockOf(x: nat, size: nat): nat
    requires size > 0
  {
    if x < size then 0 else 1 + BlockOf(x - size, size)
  }

  lemma {:induction false} BlocksIs(n: nat, size: nat)
    ensures Blocks(n, size) == n * size
  {
    if n > 0 {
      BlocksIs(n - 1, size);
    }
  }

  lemma {:induction false} BlocksAdd(m: nat, n: nat, size: nat)
    ensures Blocks(m + n, size) == Blocks(m, size) + Blocks(n, size)
  {
    if n > 0 {
      BlocksAdd(m, n - 1, size);
      assert m + n - 1 == m + (n - 1);
    }
  }

  lemma BlocksMono(m: nat, n: nat, size: nat)
    requires m <= n
    ensures Blocks(m, size) <= Blocks(n, size)
  {
    BlocksAdd(m, n - m, size);
  }

  lemma {:induction false} BlockOfBounds(x: nat, size: nat)
    requires size > 0
    ensures Blocks(BlockOf(x, size), size) <= x < Blocks(BlockOf(x, size) + 1, size)
  {
    if x >= size {
      BlockOfBounds(x - size, size);
    }
  }

  lemma BlockOfMono(x: nat, y: nat, size: nat)
    requires size > 0 && x <= y
    ensures BlockOf(x, size) <= BlockOf(y, size)
  {
    BlockOfBounds(x, size);
    BlockOfBounds(y, size);
    if BlockOf(y, size) < BlockOf(x, size) {
      BlocksMono(BlockOf(y, size) + 1, BlockOf(x, size), size);
    }
  }

  lemma BlockOfIs(x: nat, size: nat)
    requires size > 0
    ensures BlockOf(x, size) == x / size
  {
    BlockOfBounds(x, size);
    BlocksIs(BlockOf(x, size), size);
    BlocksIs(BlockOf(x, size) + 1, size);
    DivModUnique(x, size, BlockOf(x, size), x - BlockOf(x, size) * size);
  }

  lemma {:induction false} MulMono(a: int, b: int, m: nat)
    requires a <= b
    ensures a * m <= b * m
  {
  }

  lemma MulAdd(a: int, b: int, m: int)
    ensures (a + b) * m == a * m + b * m
  {
  }
}
