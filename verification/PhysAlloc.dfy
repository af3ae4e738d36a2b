/** The physical page allocator: one bit a 4 KiB page, a linear scan for aligned runs. */
module PhysAlloc {
  import opened Bits
  import opened Runs

  const PAGE_SIZE: nat := 4096
  const MAX_PAGES: nat := 1048576
  const BITMAP_WORDS: nat := 16384

  datatype AllocError = OutOfMemory | InvalidAlignment | InvalidSize
  datatype PageResult = Pages(base: nat) | Refused(error: AllocError)

  /** A usable piece of the memory map, in bytes. */
  datatype Region = Region(base: nat, length: nat)

  /** The whole pages inside the regions. */
  ghost function UsablePages(regions: seq<Region>): set<nat> {
    if regions == [] then {}
    else UsablePages(regions[..|regions| - 1]) + PagesInside(regions[|regions| - 1])
  }

  ghost function PagesInside(r: Region): set<nat> {
    set p: nat | p < MAX_PAGES && WholePage(r, p)
  }

  predicate WholePage(r: Region, p: nat) {
    r.base <= p * PAGE_SIZE && (p + 1) * PAGE_SIZE <= r.base + r.length
  }

  function HighestEnd(regions: seq<Region>): nat {
    if regions == [] then 0
    else
      var last := regions[|regions| - 1].base + regions[|regions| - 1].length;
      var before := HighestEnd(regions[..|regions| - 1]);
      if last > before then last else before
  }

  function AtMost(a: nat, b: nat): nat {
    if a < b then a else b
  }

  /** A power of two has exactly one bit set. */
  predicate IsPowerOfTwo(a: nat) {
    CountOnes(a) == 1
  }

  lemma {:induction false} PowerOfTwoIff(a: nat)
    ensures IsPowerOfTwo(a) <==> exists k: nat :: a == Pow2(k)
  {
    if IsPowerOfTwo(a) {
      var k := Exponent(a);
    } else if k: nat :| a == Pow2(k) {
      OnesOfPow2(k);
    }
  }

  lemma {:induction false} Exponent(a: nat) returns (k: nat)
    requires CountOnes(a) == 1
    ensures a == Pow2(k)
  {
    if a % 2 == 1 {
      NoOnes(a / 2);
      k := 0;
    } else {
      var j := Exponent(a / 2);
      k := j + 1;
    }
  }

  lemma {:induction false} NoOnes(a: nat)
    requires CountOnes(a) == 0
    ensures a == 0
  {
    if a > 0 {
      NoOnes(a / 2);
    }
  }

  lemma {:induction false} OnesOfPow2(k: nat)
    ensures CountOnes(Pow2(k)) == 1
  {
    if k > 0 {
      OnesOfPow2(k - 1);
    }
  }

  /** The lowest multiple of `align` that is not below `x`, by masking. */
  lemma AlignUp(x: nat, align: nat, k: nat)
    requires align == Pow2(k) < 0x1_0000_0000_0000_0000 && x <= MAX_PAGES
    ensures var up := And(x + align - 1, 0xFFFF_FFFF_FFFF_FFFF - (align - 1));
            && x <= up < x + align && up % align == 0
            && forall m: nat :: x <= m && m % align == 0 ==> up <= m
  {
    Pow2Of64();
    if k > 63 {
      Pow2Mono(64, k);
    }
    Pow2Mono(k, 63);
    assert Pow2(64) == 2 * Pow2(63);
    hide Pow2, And;
    var y := x + align - 1;
    MaskRoundsDown(y, k, 64);
    var up := y - y % align;
    MultipleBelow(y, align);
    forall m: nat | x <= m && m % align == 0
      ensures up <= m
    {
      NoMultipleBetween(up, m, align);
    }
  }

  lemma MultipleBelow(y: nat, a: nat)
    requires a > 0
    ensures (y - y % a) % a == 0 && y - a < y - y % a <= y
  {
    var q := y / a;
    assert y == q * a + y % a;
    DivModUnique(q * a, a, q, 0);
  }

  lemma NoMultipleBetween(up: nat, m: nat, a: nat)
    requires a > 0 && up % a == 0 && m % a == 0 && m > up - a
    ensures up <= m
  {
    if m < up {
      var d := up / a - m / a;
      assert d * a == up - m;
      OnlyZeroMultipleBelow(d, a);
    }
  }

  class PhysPageAllocator {
    var bitmap: seq<u64>
    var totalPages: nat
    var freePages: nat

    /** The counter is the number of clear bits. */
    ghost predicate Valid()
      reads this
    {
      && |bitmap| == BITMAP_WORDS && totalPages <= MAX_PAGES
      && Members(bitmap) <= Range(0, MAX_PAGES)
      && freePages == MAX_PAGES - |Members(bitmap)|
    }

    ghost function Used(): set<nat>
      reads this
    {
      Members(bitmap)
    }

    constructor ()
      ensures Valid() && Used() == Range(0, MAX_PAGES) && totalPages == 0
    {
      bitmap, totalPages, freePages := seq(BITMAP_WORDS, _ => 0xFFFF_FFFF_FFFF_FFFF), 0, 0;
      new;
      AllOnes(bitmap);
      RangeSize(0, MAX_PAGES);
    }

    /** Free the whole pages of every usable region. */
    method Init(regions: seq<Region>)
      requires Valid()
      modifies this
      ensures Valid() && Used() == old(Used()) - UsablePages(regions)
      ensures totalPages == AtMost(HighestEnd(regions) / PAGE_SIZE, MAX_PAGES)
    {
      hide Members, Has, UsablePages, Range;
      NoPages();
      assert regions[..|regions|] == regions;
      for i := 0 to |regions|
        invariant Valid() && Used() == old(Used()) - UsablePages(regions[..i]) && totalPages == old(totalPages)
      {
        var startPage := (regions[i].base + PAGE_SIZE - 1) / PAGE_SIZE;
        var endPage := AtMost((regions[i].base + regions[i].length) / PAGE_SIZE, MAX_PAGES);
        OneMoreRegion(regions, i, startPage, endPage);
        if startPage < endPage {
          ClearRun(startPage, endPage - startPage);
        }
      }
      var maxAddr := MaxAddr(regions);
      totalPages := AtMost(maxAddr / PAGE_SIZE, MAX_PAGES);
    }

    /** The highest usable address. */
    static method MaxAddr(regions: seq<Region>) returns (maxAddr: nat)
      ensures maxAddr == HighestEnd(regions)
    {
      maxAddr := 0;
      for i := 0 to |regions|
        invariant maxAddr == HighestEnd(regions[..i])
      {
        assert regions[..i + 1][..i] == regions[..i];
        if regions[i].base + regions[i].length > maxAddr {
          maxAddr := regions[i].base + regions[i].length;
        }
      }
      assert regions[..|regions|] == regions;
    }

    /** Mark pages as used; pages that already are do not count again. */
    method MarkUsed(base: nat, count: nat)
      requires Valid()
      modifies this`bitmap, this`freePages
      ensures Valid() && Used() == old(Used()) + Range(base / PAGE_SIZE, count) * Range(0, MAX_PAGES)
    {
      hide Members, Has, Range;
      var startPage := base / PAGE_SIZE;
      for i := 0 to count
        invariant Valid() && Used() == old(Used()) + Range(startPage, i) * Range(0, MAX_PAGES)
      {
        ghost var before := Used();
        MarkPage(startPage + i);
        OneMarked(old(Used()), before, startPage, i);
      }
    }

    method MarkPage(page: nat)
      requires Valid()
      modifies this`bitmap, this`freePages
      ensures Valid() && Used() == old(Used()) + {page} * Range(0, MAX_PAGES)
    {
      hide Members, Has, Range;
      if page < MAX_PAGES {
        var isUsed := Test(page);
        if !isUsed {
          Set(page);
        }
      }
    }

    method Test(page: nat) returns (isUsed: bool)
      requires Valid() && page < MAX_PAGES
      ensures isUsed <==> page in Used()
    {
      TestBitIsMembership(bitmap, page);
      return And(bitmap[page / 64], Pow2(page % 64)) != 0;
    }

    /** Use a free page. */
    method Set(page: nat)
      requires Valid() && page < MAX_PAGES && page !in Used()
      modifies this`bitmap, this`freePages
      ensures Valid() && Used() == old(Used()) + {page} && freePages == old(freePages) - 1
    {
      hide Members, Has, Bit, And, Or, Pow2, Range, Not64;
      SetBitAddsIndex(bitmap, page);
      OneUsed(Members(bitmap), page);
      bitmap := bitmap[page / 64 := Or(bitmap[page / 64], Pow2(page % 64))];
      freePages := freePages - 1;
    }

    /** Free a used page. */
    method Clear(page: nat)
      requires Valid() && page < MAX_PAGES && page in Used()
      modifies this`bitmap, this`freePages
      ensures Valid() && Used() == old(Used()) - {page}
    {
      hide Members, Has, Bit, And, Or, Pow2, Range, Not64;
      ClearBitRemovesIndex(bitmap, page);
      OneFreed(Members(bitmap), page);
      bitmap := bitmap[page / 64 := And(bitmap[page / 64], Not64(Pow2(page % 64)))];
      freePages := freePages + 1;
    }

    /** Free the used ones among `count` pages. */
    method ClearRun(start: nat, count: nat)
      requires Valid()
      modifies this`bitmap, this`freePages
      ensures Valid() && Used() == old(Used()) - Range(start, count)
    {
      hide Members, Has, Range;
      for i := 0 to count
        invariant Valid() && Used() == old(Used()) - Range(start, i)
      {
        var page := start + i;
        if page < MAX_PAGES {
          var isUsed := Test(page);
          if isUsed {
            Clear(page);
          }
        }
      }
    }

    method AllocPage() returns (r: PageResult)
      requires Valid()
      modifies this`bitmap, this`freePages
      ensures Valid()
      ensures r.Pages? ==>
                && r.base == (r.base / PAGE_SIZE) * PAGE_SIZE
                && LowestRun(old(Used()), totalPages, 1, 1, r.base / PAGE_SIZE)
                && Used() == old(Used()) + {r.base / PAGE_SIZE}
      ensures r.Refused? ==> NoRun(old(Used()), totalPages, 1, 1) && Used() == old(Used())
    {
      assert CountOnes(1) == 1;
      hide CountOnes, Members, Has, Range, LowestRun, NoRun;
      r := AllocPagesContiguous(1, 1);
      assert r.Refused? ==> r.error == InvalidSize || r.error == InvalidAlignment || r.error == OutOfMemory;
      if r.Pages? {
        assert Range(r.base / PAGE_SIZE, 1) == {r.base / PAGE_SIZE};
      }
    }

    /** The lowest aligned run of free pages; refused exactly when the request is malformed or there is none. */
    method AllocPagesContiguous(count: nat, align: u64) returns (r: PageResult)
      requires Valid()
      modifies this`bitmap, this`freePages
      ensures Valid()
      ensures r == Refused(InvalidSize) <==> count == 0
      ensures r == Refused(InvalidAlignment) <==> count > 0 && !IsPowerOfTwo(align)
      ensures r.Pages? ==>
                && align > 0 && r.base == (r.base / PAGE_SIZE) * PAGE_SIZE
                && LowestRun(old(Used()), totalPages, count, align, r.base / PAGE_SIZE)
                && Used() == old(Used()) + Range(r.base / PAGE_SIZE, count)
                && freePages == old(freePages) - count
      ensures r == Refused(OutOfMemory) ==> align > 0 && NoRun(old(Used()), totalPages, count, align)
      ensures r.Refused? ==> bitmap == old(bitmap) && freePages == old(freePages)
    {
      hide Members, Has, And, CountOnes;
      if count == 0 {
        return Refused(InvalidSize);
      }
      if !IsPowerOfTwo(align) {
        return Refused(InvalidAlignment);
      }
      ghost var k := Exponent(align);
      if freePages < count {
        NoRunWhenShort(Used(), freePages, totalPages, count, align);
        return Refused(OutOfMemory);
      }
      var candidate := 0;
      while candidate + count <= totalPages
        invariant Valid() && bitmap == old(bitmap) && freePages == old(freePages)
        invariant forall s: nat :: s < candidate && s % align == 0 ==> !FreeRun(Used(), s, count)
        decreases totalPages - candidate
      {
        AlignUp(candidate, align, k);
        var aligned := And(candidate + align - 1, 0xFFFF_FFFF_FFFF_FFFF - (align - 1));
        if aligned + count > totalPages {
          ScanExhausted(Used(), candidate, aligned, totalPages, count, align);
          return Refused(OutOfMemory);
        }
        var next := FirstUsed(aligned, count);
        if next == aligned + count {
          TakePages(aligned, count);
          PageAddress(aligned);
          return Pages(aligned * PAGE_SIZE);
        }
        SkippedPast(Used(), candidate, aligned, next, count, align);
        candidate := next + 1;
      }
      ScanExhausted(Used(), candidate, candidate, totalPages, count, align);
      return Refused(OutOfMemory);
    }

    /** The first used page of the run, or its end. */
    method FirstUsed(aligned: nat, count: nat) returns (page: nat)
      requires Valid() && aligned + count <= totalPages
      ensures aligned <= page <= aligned + count && FreeRun(Used(), aligned, page - aligned)
      ensures page < aligned + count ==> page in Used()
    {
      hide Members, Has;
      for i := 0 to count
        invariant FreeRun(Used(), aligned, i)
      {
        var isUsed := Test(aligned + i);
        if isUsed {
          return aligned + i;
        }
      }
      return aligned + count;
    }

    /** Mark a free run as used. */
    method TakePages(start: nat, count: nat)
      requires Valid() && start + count <= MAX_PAGES && FreeRun(Used(), start, count)
      modifies this`bitmap, this`freePages
      ensures Valid() && Used() == old(Used()) + Range(start, count) && freePages == old(freePages) - count
    {
      hide Members, Has;
      for i := 0 to count
        invariant Valid() && Used() == old(Used()) + Range(start, i) && freePages == old(freePages) - i
      {
        Set(start + i);
      }
    }

    /** Free pages by address; pages that are free already stay free and are not counted. */
    method FreePages(base: nat, count: nat)
      requires Valid()
      modifies this`bitmap, this`freePages
      ensures Valid() && Used() == old(Used()) - Range(base / PAGE_SIZE, count)
    {
      ClearRun(base / PAGE_SIZE, count);
    }
  }

  // ---- Facts about the scan ----

  lemma AllOnes(words: seq<u64>)
    requires |words| == BITMAP_WORDS && forall w :: 0 <= w < |words| ==> words[w] == 0xFFFF_FFFF_FFFF_FFFF
    ensures Members(words) == Range(0, MAX_PAGES)
  {
    Pow2Of64();
    forall i: nat | i < MAX_PAGES
      ensures Has(words, i)
    {
      BitComplement(0, 64, i % 64);
      BitZero(i % 64);
    }
  }

  lemma NoPages()
    ensures UsablePages([]) == {}
  {
  }

  lemma OneUsed(used: set<nat>, page: nat)
    requires page !in used && page < MAX_PAGES && used <= Range(0, MAX_PAGES)
    ensures |used + {page}| == |used| + 1 <= MAX_PAGES && used + {page} <= Range(0, MAX_PAGES)
  {
    TakeRun(used, MAX_PAGES, page, 1);
    assert Range(page, 1) == {page};
  }

  lemma OneFreed(used: set<nat>, page: nat)
    requires page in used
    ensures |used - {page}| == |used| - 1
  {
  }

  lemma OneMarked(used: set<nat>, before: set<nat>, start: nat, i: nat)
    requires before == used + Range(start, i) * Range(0, MAX_PAGES)
    ensures before + {start + i} * Range(0, MAX_PAGES) == used + Range(start, i + 1) * Range(0, MAX_PAGES)
  {
    hide Range;
  }

  /** One more region: the loop bounds are exactly its whole pages. */
  lemma OneMoreRegion(regions: seq<Region>, i: nat, startPage: nat, endPage: nat)
    requires i < |regions| && startPage == (regions[i].base + PAGE_SIZE - 1) / PAGE_SIZE
    requires endPage == AtMost((regions[i].base + regions[i].length) / PAGE_SIZE, MAX_PAGES)
    ensures UsablePages(regions[..i + 1])
            == UsablePages(regions[..i]) + (if startPage < endPage then Range(startPage, endPage - startPage) else {})
  {
    assert regions[..i + 1][..i] == regions[..i];
    var inside := PagesInside(regions[i]);
    assert inside == if startPage < endPage then Range(startPage, endPage - startPage) else {};
  }

  /** After a used page, no run that starts at or before it is free. */
  lemma SkippedPast(used: set<nat>, candidate: nat, aligned: nat, page: nat, count: nat, align: nat)
    requires align > 0 && candidate <= aligned <= page < aligned + count && page in used
    requires forall s: nat :: s < candidate && s % align == 0 ==> !FreeRun(used, s, count)
    requires forall m: nat :: candidate <= m && m % align == 0 ==> aligned <= m
    ensures forall s: nat :: s < page + 1 && s % align == 0 ==> !FreeRun(used, s, count)
  {
  }

  lemma ScanExhausted(used: set<nat>, candidate: nat, aligned: nat, total: nat, count: nat, align: nat)
    requires align > 0 && aligned + count > total
    requires forall s: nat :: s < candidate && s % align == 0 ==> !FreeRun(used, s, count)
    requires forall m: nat :: candidate <= m && m % align == 0 ==> aligned <= m
    ensures NoRun(used, total, count, align)
  {
  }

  /** What the scan leaves out on a full memory: fewer free bits than pages asked for mean no run. */
  lemma NoRunWhenShort(used: set<nat>, freePages: nat, total: nat, count: nat, align: nat)
    requires align > 0 && used <= Range(0, MAX_PAGES) && freePages == MAX_PAGES - |used| && freePages < count && total <= MAX_PAGES
    ensures NoRun(used, total, count, align)
  {
    NoRunWithoutSpace(used, MAX_PAGES, count, align);
  }

  lemma PageAddress(page: nat)
    ensures page * PAGE_SIZE / PAGE_SIZE == page
  {
  }

  /** Memory set up from its map, before any allocation: exactly the usable pages are free, and the
      scan's bound covers all of them. */
  lemma {:induction false} UsableBelowTotal(regions: seq<Region>)
    ensures UsablePages(regions) <= Range(0, AtMost(HighestEnd(regions) / PAGE_SIZE, MAX_PAGES))
  {
    if regions != [] {
      UsableBelowTotal(regions[..|regions| - 1]);
    }
  }
}
