/** Bitwise arithmetic on machine words.

    A `u64` is a natural number below 2^64; `And`, `Or` and `Not64` are the machine's bitwise
    operators, defined bit by bit. The lemmas say which bits of a result are set, so that the
    allocators' word/mask code can be read as operations on sets of bit indices. */
module Bits {

  type byte = x: int | 0 <= x < 256

  type u64 = x: int | 0 <= x < 0x1_0000_0000_0000_0000

  type u32 = x: int | 0 <= x < 0x1_0000_0000

  function Pow2(k: nat): (r: nat)
    ensures r > 0
  {
    if k == 0 then 1 else 2 * Pow2(k - 1)
  }

  /** Bit `k` of `a`. */
  predicate Bit(a: nat, k: nat) {
    if k == 0 then a % 2 == 1 else Bit(a / 2, k - 1)
  }

  function And(a: nat, b: nat): nat {
    if a == 0 then 0 else 2 * And(a / 2, b / 2) + (if a % 2 == 1 && b % 2 == 1 then 1 else 0)
  }

  function Or(a: nat, b: nat): nat
    decreases a + b
  {
    if a == 0 then b else if b == 0 then a
    else 2 * Or(a / 2, b / 2) + (if a % 2 == 1 || b % 2 == 1 then 1 else 0)
  }

  function Not64(a: u64): u64 {
    0xFFFF_FFFF_FFFF_FFFF - a
  }

  /** The number of set bits (`count_ones`). */
  function CountOnes(a: nat): nat {
    if a == 0 then 0 else a % 2 + CountOnes(a / 2)
  }

  lemma Pow2Of64()
    ensures Pow2(64) == 0x1_0000_0000_0000_0000
    ensures Pow2(8) == 256
  {
    assert Pow2(8) == 256;
    assert Pow2(16) == 0x1_0000;
    assert Pow2(24) == 0x100_0000;
    assert Pow2(32) == 0x1_0000_0000;
    assert Pow2(40) == 0x100_0000_0000;
    assert Pow2(48) == 0x1_0000_0000_0000;
    assert Pow2(56) == 0x100_0000_0000_0000;
  }

  lemma {:induction false} Pow2Mono(j: nat, k: nat)
    requires j <= k
    ensures Pow2(j) <= Pow2(k)
    decreases k
  {
    if j < k {
      Pow2Mono(j, k - 1);
    }
  }

  lemma {:induction false} Pow2Add(j: nat, k: nat)
    ensures Pow2(j + k) == Pow2(j) * Pow2(k)
  {
    if j > 0 {
      Pow2Add(j - 1, k);
    }
  }

  lemma {:induction false} BitZero(k: nat)
    ensures !Bit(0, k)
  {
    if k > 0 {
      BitZero(k - 1);
    }
  }

  lemma {:induction false} BitPow2(k: nat, j: nat)
    ensures Bit(Pow2(k), j) <==> j == k
  {
    if k > 0 && j > 0 {
      BitPow2(k - 1, j - 1);
    } else if j > 0 {
      BitZero(j - 1);
    }
  }

  lemma {:induction false} BitAnd(a: nat, b: nat, k: nat)
    ensures Bit(And(a, b), k) <==> Bit(a, k) && Bit(b, k)
  {
    if a == 0 {
      BitZero(k);
    } else if k > 0 {
      BitAnd(a / 2, b / 2, k - 1);
    }
  }

  lemma {:induction false} BitOr(a: nat, b: nat, k: nat)
    ensures Bit(Or(a, b), k) <==> Bit(a, k) || Bit(b, k)
  {
    if a == 0 || b == 0 {
      BitZero(k);
    } else if k > 0 {
      BitOr(a / 2, b / 2, k - 1);
    }
  }

  lemma {:induction false} BitComplement(a: nat, n: nat, k: nat)
    requires a < Pow2(n) && k < n
    ensures Bit(Pow2(n) - 1 - a, k) <==> !Bit(a, k)
  {
    if k > 0 {
      assert (Pow2(n) - 1 - a) / 2 == Pow2(n - 1) - 1 - a / 2;
      BitComplement(a / 2, n - 1, k - 1);
    }
  }

  lemma {:induction false} AndAtMost(a: nat, b: nat)
    ensures And(a, b) <= a
  {
    if a > 0 {
      AndAtMost(a / 2, b / 2);
    }
  }

  lemma {:induction false} OrBelow(a: nat, b: nat, n: nat)
    requires a < Pow2(n) && b < Pow2(n)
    ensures Or(a, b) < Pow2(n)
  {
    if a > 0 && b > 0 {
      OrBelow(a / 2, b / 2, n - 1);
    }
  }

  lemma {:induction false} AndZeroIffBitClear(a: nat, k: nat)
    ensures And(a, Pow2(k)) != 0 <==> Bit(a, k)
  {
    if a == 0 {
      BitZero(k);
    } else if k > 0 {
      AndZeroIffBitClear(a / 2, k - 1);
    } else {
      AndWithZero(a / 2);
    }
  }

  lemma {:induction false} AndWithZero(a: nat)
    ensures And(a, 0) == 0
  {
    if a > 0 {
      AndWithZero(a / 2);
    }
  }

  /** Masking off the low `k` bits rounds down to a multiple of 2^k: `x & !(2^k - 1)`. */
  lemma {:induction false} MaskRoundsDown(x: nat, k: nat, n: nat)
    requires x < Pow2(n) && k <= n
    ensures Pow2(k) <= Pow2(n)
    ensures And(x, Pow2(n) - Pow2(k)) == x - x % Pow2(k)
  {
    Pow2Mono(k, n);
    if k == 0 {
      AndWithOnes(x, n);
    } else {
      var m, h := Pow2(k - 1), Pow2(n - 1);
      assert Pow2(k) == 2 * m && Pow2(n) == 2 * h;
      Halved(x, h);
      hide And, Pow2;
      MaskRoundsDown(x / 2, k - 1, n - 1);
      AndWithEven(x, h - m);
      MaskHalves(x, m, And(x / 2, h - m));
    }
  }

  lemma MaskHalves(x: nat, m: nat, a: nat)
    requires m > 0 && a == x / 2 - (x / 2) % m
    ensures 2 * a == x - x % (2 * m)
  {
    ModHalves(x, m);
  }

  lemma Halved(x: nat, h: nat)
    requires x < 2 * h
    ensures x / 2 < h && x == 2 * (x / 2) + x % 2
  {
  }

  lemma AndWithEven(x: nat, h: nat)
    ensures And(x, 2 * h) == 2 * And(x / 2, h)
  {
  }

  lemma {:induction false} AndWithOnes(x: nat, n: nat)
    requires x < Pow2(n)
    ensures And(x, Pow2(n) - 1) == x
  {
    if x > 0 {
      var h := Pow2(n - 1);
      assert Pow2(n) == 2 * h;
      AndWithOnes(x / 2, n - 1);
      AndWithOdd(x, h - 1);
    }
  }

  lemma AndWithOdd(x: nat, h: nat)
    ensures And(x, 2 * h + 1) == 2 * And(x / 2, h) + x % 2
  {
    var y := 2 * h + 1;
    assert y / 2 == h && y % 2 == 1;
    assert x == 0 ==> x / 2 == 0;
  }

  lemma ModHalves(x: nat, m: nat)
    requires m > 0
    ensures x % (2 * m) == 2 * ((x / 2) % m) + x % 2
  {
    var q, r := (x / 2) / m, (x / 2) % m;
    assert x / 2 == q * m + r;
    assert x == q * (2 * m) + (2 * r + x % 2);
    DivModUnique(x, 2 * m, q, 2 * r + x % 2);
  }

  /** Euclidean division is unique. */
  lemma DivModUnique(x: int, m: int, q: int, r: int)
    requires m > 0 && x == q * m + r && 0 <= r < m
    ensures x / m == q && x % m == r
  {
    var d := x / m - q;
    assert d * m == r - x % m by {
      assert x == (x / m) * m + x % m;
    }
    OnlyZeroMultipleBelow(d, m);
  }

  lemma OnlyZeroMultipleBelow(d: int, m: int)
    requires -m < d * m < m
    ensures d == 0
  {
  }

  // ---- Sequences of words as sets of indices ----

  /** Bit `i % 64` of word `i / 64`; indices past the last word are not set. */
  predicate Has(words: seq<u64>, i: nat) {
    i / 64 < |words| && Bit(words[i / 64], i % 64)
  }

  ghost function Members(words: seq<u64>): set<nat> {
    set i: nat | i < 64 * |words| && Has(words, i)
  }

  /** `words[i / 64] |= 1 << (i % 64)` adds exactly the index `i`. */
  lemma SetBitAddsIndex(words: seq<u64>, i: nat)
    requires i < 64 * |words|
    ensures Or(words[i / 64], Pow2(i % 64)) < 0x1_0000_0000_0000_0000
    ensures var words' := words[i / 64 := Or(words[i / 64], Pow2(i % 64))];
            Members(words') == Members(words) + {i}
  {
    var k := i % 64;
    Pow2Of64();
    Pow2Mono(k + 1, 64);
    OrBelow(words[i / 64], Pow2(k), 64);
    var words' := words[i / 64 := Or(words[i / 64], Pow2(k))];
    forall j: nat | j < 64 * |words|
      ensures Has(words', j) <==> Has(words, j) || j == i
    {
      if j / 64 == i / 64 {
        BitOr(words[i / 64], Pow2(k), j % 64);
        BitPow2(k, j % 64);
      }
    }
  }

  /** `words[i / 64] &= !(1 << (i % 64))` removes exactly the index `i`. */
  lemma ClearBitRemovesIndex(words: seq<u64>, i: nat)
    requires i < 64 * |words|
    ensures Pow2(i % 64) < 0x1_0000_0000_0000_0000
    ensures And(words[i / 64], Not64(Pow2(i % 64))) < 0x1_0000_0000_0000_0000
    ensures var words' := words[i / 64 := And(words[i / 64], Not64(Pow2(i % 64)))];
            Members(words') == Members(words) - {i}
  {
    var k := i % 64;
    Pow2Of64();
    Pow2Mono(k + 1, 64);
    AndAtMost(words[i / 64], Not64(Pow2(k)));
    var words' := words[i / 64 := And(words[i / 64], Not64(Pow2(k)))];
    forall j: nat | j < 64 * |words|
      ensures Has(words', j) <==> Has(words, j) && j != i
    {
      if j / 64 == i / 64 {
        BitAnd(words[i / 64], Not64(Pow2(k)), j % 64);
        BitComplement(Pow2(k), 64, j % 64);
        BitPow2(k, j % 64);
      }
    }
  }

  /** Testing a mask is testing membership: `words[i / 64] & (1 << (i % 64)) != 0`. */
  lemma TestBitIsMembership(words: seq<u64>, i: nat)
    requires i < 64 * |words|
    ensures And(words[i / 64], Pow2(i % 64)) != 0 <==> i in Members(words)
  {
    AndZeroIffBitClear(words[i / 64], i % 64);
  }

  lemma ZeroWordsEmpty(words: seq<u64>)
    requires forall w :: 0 <= w < |words| ==> words[w] == 0
    ensures Members(words) == {}
  {
    forall i: nat | i < 64 * |words|
      ensures !Has(words, i)
    {
      BitZero(i % 64);
    }
  }
}
