/** The physical page allocator of arch/x86_64/pmm.c: a bitmap of 64-bit words. */
module Pmm {
  import opened Words
  import opened PageMap

  const PAGE: nat := 4096
  const MAX_PAGES: nat := 1048576
  const BITMAP_WORDS: nat := 16384

  datatype MemEntry = MemEntry(base: nat, length: nat, usable: bool)

  /** The whole pages inside a memory-map entry. */
  function FirstPage(e: MemEntry): nat { (e.base + PAGE - 1) / PAGE }
  function EndPage(e: MemEntry): nat { (e.base + e.length) / PAGE }

  ghost predicate Covers(e: MemEntry, p: nat) {
    e.usable && FirstPage(e) <= p < EndPage(e)
  }

  ghost predicate Usable(memmap: seq<MemEntry>, p: nat) {
    exists i :: 0 <= i < |memmap| && Covers(memmap[i], p)
  }

  /** No two usable entries share a page below `total`. */
  ghost predicate NoOverlap(memmap: seq<MemEntry>, total: nat) {
    forall i, j, p: nat :: 0 <= i < j < |memmap| && p < total ==> !(Covers(memmap[i], p) && Covers(memmap[j], p))
  }

  lemma PageNumber(p: nat)
    ensures (p * PAGE) / PAGE == p && (p * PAGE) % PAGE == 0
  {
  }

  function Highest(memmap: seq<MemEntry>): nat {
    if memmap == [] then 0
    else
      var e := memmap[|memmap| - 1];
      var h := Highest(memmap[..|memmap| - 1]);
      if e.base + e.length > h then e.base + e.length else h
  }

  function ClampPages(n: nat): nat {
    if n > MAX_PAGES then MAX_PAGES else n
  }

  lemma UsableStep(memmap: seq<MemEntry>, i: nat, total: nat)
    requires i < |memmap|
    ensures forall p: nat :: Usable(memmap[..i + 1], p) <==> Usable(memmap[..i], p) || Covers(memmap[i], p)
    ensures NoOverlap(memmap[..i + 1], total) <==>
              NoOverlap(memmap[..i], total) && forall p: nat :: p < total ==> !(Usable(memmap[..i], p) && Covers(memmap[i], p))
  {
    OverlapStep(memmap, i, total);
    var a, b := memmap[..i], memmap[..i + 1];
    forall p: nat ensures Usable(b, p) <==> Usable(a, p) || Covers(memmap[i], p) {
      if Usable(a, p) { var j :| 0 <= j < i && Covers(a[j], p); assert Covers(b[j], p); }
      if Covers(memmap[i], p) { assert Covers(b[i], p); }
      if Usable(b, p) { var j :| 0 <= j <= i && Covers(b[j], p); if j < i { assert Covers(a[j], p); } }
    }
  }

  lemma OverlapStep(memmap: seq<MemEntry>, i: nat, total: nat)
    requires i < |memmap|
    ensures NoOverlap(memmap[..i + 1], total) <==>
              NoOverlap(memmap[..i], total) && forall p: nat :: p < total ==> !(Usable(memmap[..i], p) && Covers(memmap[i], p))
  {
    var a, b := memmap[..i], memmap[..i + 1];
    if NoOverlap(b, total) {
      forall j, k, p: nat | 0 <= j < k < i && p < total ensures !(Covers(a[j], p) && Covers(a[k], p)) { assert a[j] == b[j] && a[k] == b[k]; }
      forall p: nat | p < total ensures !(Usable(a, p) && Covers(memmap[i], p)) {
        if Usable(a, p) { var j :| 0 <= j < i && Covers(a[j], p); assert a[j] == b[j] && b[i] == memmap[i]; }
      }
    }
    if NoOverlap(a, total) && forall p: nat :: p < total ==> !(Usable(a, p) && Covers(memmap[i], p)) {
      forall j, k, p: nat | 0 <= j < k <= i && p < total ensures !(Covers(b[j], p) && Covers(b[k], p)) {
        assert a[j] == b[j];
        if k < i { assert a[k] == b[k]; } else if Covers(b[j], p) { assert Usable(a, p); }
      }
    }
  }

  // ---- one bit of the bitmap ------------------------------------------------------

  predicate Word64(w: nat) {
    w < Pow2(64)
  }

  /** `(w >> k) & 1`. */
  lemma TestBit(w: nat, k: nat)
    ensures And(Shr(w, k), 1) == 1 <==> Bit(w, k)
  {
    assert Pow2(1) == 2;
    AndOnes(Shr(w, k), 1);
    BitOfShr(w, k, 0);
    assert Low(Shr(w, k), 1) == Shr(w, k) % 2;
  }

  /** `w | (1 << k)`. */
  lemma SetBit(w: nat, k: nat, j: nat)
    requires Word64(w) && k < 64
    ensures Word64(Or(w, Pow2(k)))
    ensures Bit(Or(w, Pow2(k)), j) == (Bit(w, j) || j == k)
  {
    Pow2Monotone(k, 64);
    OrBelow(w, Pow2(k), 64);
    BitOfOr(w, Pow2(k), j);
    BitOfPow2(k, j);
  }

  /** `w & ~(1 << k)`. */
  function Without(w: nat, k: nat): nat
    requires k < 64
  {
    Pow2Monotone(k, 64);
    And(w, Not(Pow2(k), 64))
  }

  lemma ClearBit(w: nat, k: nat, j: nat)
    requires Word64(w) && k < 64 && j < 64
    ensures Word64(Without(w, k))
    ensures Bit(Without(w, k), j) == (Bit(w, j) && j != k)
  {
    Pow2Monotone(k, 64);
    BitOfAnd(w, Not(Pow2(k), 64), j);
    BitOfNot(Pow2(k), 64, j);
    BitOfPow2(k, j);
    AndAtMost(w, Not(Pow2(k), 64));
  }

  lemma AllBits(k: nat)
    requires k < 64
    ensures Word64(Pow2(64) - 1) && Bit(Pow2(64) - 1, k)
  {
    BitOfNot(0, 64, k);
    NoBits(k);
  }

  lemma ZeroWord()
    ensures Word64(0)
  {
    Pow2Monotone(0, 64);
  }

  /** Page i according to the words. */
  function PageBit(words: seq<nat>, i: nat): bool
    requires i / 64 < |words|
  {
    Bit(words[i / 64], i % 64)
  }

  function UsedMap(words: seq<nat>, total: nat): (r: seq<bool>)
    requires total <= 64 * |words|
    ensures |r| == total
  {
    seq(total, i requires 0 <= i < total => PageBit(words, i))
  }

  ghost predicate Words64(words: seq<nat>) {
    forall i :: 0 <= i < |words| ==> Word64(words[i])
  }

  lemma SetPage(words: seq<nat>, total: nat, page: nat)
    requires Words64(words) && total <= 64 * |words| && page < total
    ensures var w' := words[page / 64 := Or(words[page / 64], Pow2(page % 64))];
      Words64(w') && UsedMap(w', total) == UsedMap(words, total)[page := true]
  {
    var w' := words[page / 64 := Or(words[page / 64], Pow2(page % 64))];
    SetBit(words[page / 64], page % 64, 0);
    forall i | 0 <= i < total ensures PageBit(w', i) == (PageBit(words, i) || i == page) {
      if i / 64 == page / 64 { SetBit(words[page / 64], page % 64, i % 64); }
    }
  }

  lemma ClearPage(words: seq<nat>, total: nat, page: nat)
    requires Words64(words) && total <= 64 * |words| && page < total
    ensures var w' := words[page / 64 := Without(words[page / 64], page % 64)];
      Words64(w') && UsedMap(w', total) == UsedMap(words, total)[page := false]
  {
    var w' := words[page / 64 := Without(words[page / 64], page % 64)];
    ClearBit(words[page / 64], page % 64, 0);
    forall i | 0 <= i < total ensures PageBit(w', i) == (PageBit(words, i) && i != page) {
      if i / 64 == page / 64 { ClearBit(words[page / 64], page % 64, i % 64); }
    }
  }

  class Allocator {
    const bitmap: array<nat>
    var totalPages: nat
    var usablePages: nat
    var freePages: nat

    ghost predicate Shape()
      reads this, bitmap
    {
      bitmap.Length == BITMAP_WORDS && totalPages <= MAX_PAGES && Words64(bitmap[..])
    }

    ghost function Used(): seq<bool>
      requires Shape()
      reads this, bitmap
    {
      UsedMap(bitmap[..], totalPages)
    }

    /** free_pages is the number of clear bits below total_pages. */
    ghost predicate Valid()
      reads this, bitmap
    {
      Shape() && freePages == CountFree(Used())
    }

    constructor ()
      ensures Shape() && fresh(bitmap) && Valid() && totalPages == 0
    {
      hide Pow2, UsedMap;
      bitmap := new nat[BITMAP_WORDS](_ => 0);
      totalPages, usablePages, freePages := 0, 0, 0;
      new;
      ZeroWord();
      assert Used() == [];
    }

    method BitmapSet(page: nat)
      requires Shape() && page < totalPages
      modifies bitmap
      ensures Shape() && Used() == old(Used())[page := true]
    {
      SetPage(bitmap[..], totalPages, page);
      bitmap[page / 64] := Or(bitmap[page / 64], Pow2(page % 64));
      assert bitmap[..] == old(bitmap[..])[page / 64 := bitmap[page / 64]];
    }

    method BitmapClear(page: nat)
      requires Shape() && page < totalPages
      modifies bitmap
      ensures Shape() && Used() == old(Used())[page := false]
    {
      ClearPage(bitmap[..], totalPages, page);
      bitmap[page / 64] := Without(bitmap[page / 64], page % 64);
      assert bitmap[..] == old(bitmap[..])[page / 64 := bitmap[page / 64]];
    }

    method BitmapTest(page: nat) returns (b: bool)
      requires Shape() && page < totalPages
      ensures b == Used()[page]
    {
      TestBit(bitmap[page / 64], page % 64);
      b := And(Shr(bitmap[page / 64], page % 64), 1) == 1;
    }

    /**
     Mark every page as used.  total_pages / 64 + 1 words are stored, one too many for the bitmap when
     total_pages == MAX_PAGES: `overrun` reports that store and nothing else of the state changes by it.
     */
    method MarkAllUsed() returns (overrun: bool)
      requires Shape()
      modifies bitmap
      ensures Shape() && forall p :: 0 <= p < totalPages ==> Used()[p]
      ensures overrun <==> totalPages == MAX_PAGES
    {
      hide Pow2, Bit, Word64;
      var n := totalPages / 64 + 1;
      AllBits(0);
      overrun := false;
      for i := 0 to n
        invariant Shape() && forall j :: 0 <= j < i && j < BITMAP_WORDS ==> bitmap[j] == Pow2(64) - 1
        invariant overrun <==> i > BITMAP_WORDS
      {
        if i < BITMAP_WORDS { bitmap[i] := Pow2(64) - 1; } else { overrun := true; }
      }
      forall p | 0 <= p < totalPages ensures Used()[p] { AllBits(p % 64); }
    }

    /** Clear the pages of one usable entry that the bitmap reaches, counting each of them. */
    method FreeEntry(e: MemEntry)
      requires Shape() && e.usable
      modifies this`freePages, bitmap
      ensures Shape() && forall p :: 0 <= p < totalPages ==> Used()[p] == (old(Used())[p] && !Covers(e, p))
      ensures freePages - CountFree(Used()) >= old(freePages) - CountFree(old(Used()))
      ensures freePages - CountFree(Used()) == old(freePages) - CountFree(old(Used())) <==>
                forall p :: 0 <= p < totalPages && Covers(e, p) ==> old(Used())[p]
    {
      hide UsedMap, CountFree;
      var page := FirstPage(e);
      while page < EndPage(e)
        invariant FirstPage(e) <= page && (page <= EndPage(e) || page == FirstPage(e)) && Shape()
        invariant forall p :: 0 <= p < totalPages ==> Used()[p] == (old(Used())[p] && !(FirstPage(e) <= p < page))
        invariant freePages - CountFree(Used()) >= old(freePages) - CountFree(old(Used()))
        invariant freePages - CountFree(Used()) == old(freePages) - CountFree(old(Used())) <==>
                    forall p :: FirstPage(e) <= p < page && p < totalPages ==> old(Used())[p]
      {
        if page < totalPages {
          CountSet(Used(), page, false);
          BitmapClear(page);
          freePages := freePages + 1;
        }
        page := page + 1;
      }
    }

    /**
     pmm_init, for every memory map: of the pages below the clamped total, exactly the whole pages
     inside usable entries become free, and free_pages counts them if and only if no two usable
     entries share one of those pages.  The store behind the bitmap happens exactly for maps that
     reach MAX_PAGES pages.
     */
    method Init(memmap: seq<MemEntry>) returns (overrun: bool)
      requires bitmap.Length == BITMAP_WORDS && Words64(bitmap[..])
      modifies this, bitmap
      ensures Shape() && totalPages == ClampPages(Highest(memmap) / PAGE) && usablePages == freePages
      ensures forall p: nat :: p < totalPages ==> (!Used()[p] <==> Usable(memmap, p))
      ensures Valid() <==> NoOverlap(memmap, totalPages)
      ensures overrun <==> Highest(memmap) >= MAX_PAGES * PAGE
    {
      hide UsedMap, CountFree, Usable, NoOverlap;
      var highest: nat := 0;
      for i := 0 to |memmap|
        invariant highest == Highest(memmap[..i])
      {
        assert memmap[..i + 1][..i] == memmap[..i];
        var top := memmap[i].base + memmap[i].length;
        if top > highest { highest := top; }
      }
      assert memmap[..|memmap|] == memmap;
      totalPages := ClampPages(highest / PAGE);
      freePages := 0;
      overrun := MarkAllUsed();
      CountAllUsed(Used());
      FreeUsable(memmap);
      usablePages := freePages;
    }

    /** The second pass over the memory map. */
    method FreeUsable(memmap: seq<MemEntry>)
      requires Valid() && forall p :: 0 <= p < totalPages ==> Used()[p]
      modifies this`freePages, bitmap
      ensures Shape() && forall p: nat :: p < totalPages ==> (!Used()[p] <==> Usable(memmap, p))
      ensures Valid() <==> NoOverlap(memmap, totalPages)
    {
      hide UsedMap, CountFree, Usable, NoOverlap, Covers;
      NothingUsable(memmap, totalPages);
      for i := 0 to |memmap|
        invariant Shape()
        invariant forall p: nat :: p < totalPages ==> (!Used()[p] <==> Usable(memmap[..i], p))
        invariant freePages >= CountFree(Used()) && (freePages == CountFree(Used()) <==> NoOverlap(memmap[..i], totalPages))
      {
        UsableStep(memmap, i, totalPages);
        if memmap[i].usable { FreeEntry(memmap[i]); } else { NotCovering(memmap[i]); }
      }
      assert memmap[..|memmap|] == memmap;
    }

    lemma NothingUsable(memmap: seq<MemEntry>, total: nat)
      ensures forall p: nat :: !Usable(memmap[..0], p)
      ensures NoOverlap(memmap[..0], total)
    {
    }

    lemma NotCovering(e: MemEntry)
      requires !e.usable
      ensures forall p: nat :: !Covers(e, p)
    {
    }

    /** Mark pages s .. s + n - 1 as allocated. */
    method MarkUsed(s: nat, n: nat)
      requires Shape() && s + n <= totalPages
      modifies bitmap
      ensures Shape() && Used() == SetRange(old(Used()), s, n, true)
    {
      var j := s;
      while j < s + n
        invariant s <= j <= s + n && Shape()
        invariant Used() == SetRange(old(Used()), s, j - s, true)
      {
        BitmapSet(j);
        j := j + 1;
      }
    }

    /**
     pmm_alloc_pages: takes the lowest-starting run of count free pages and fails only if there is
     none.  Address 0 is both the failure value and the address of page 0.
     */
    method AllocPages(count: nat) returns (addr: nat)
      requires Valid()
      modifies this`freePages, bitmap
      ensures Valid()
      ensures (count == 0 || forall s: nat :: !Run(old(Used()), s, count)) ==> addr == 0 && Used() == old(Used())
      ensures count > 0 && (exists s: nat :: Run(old(Used()), s, count)) ==>
        addr % PAGE == 0 && FirstFit(old(Used()), count, addr / PAGE) && Used() == SetRange(old(Used()), addr / PAGE, count, true)
    {
      hide Run, Scanned, NoneWithin, SetRange, CountFree, UsedMap;
      ghost var used := Used();
      if count == 0 || freePages < count {
        forall s: nat | Run(used, s, count) ensures count <= freePages { RunCounts(used, s, count); }
        return 0;
      }
      var run, start := 0, 0;
      ScanStart(used, count);
      for i := 0 to totalPages
        invariant Shape() && Used() == used && freePages == old(freePages)
        invariant run <= i && run < count && (run > 0 ==> start == i - run)
        invariant Scanned(used, i, run) && NoneWithin(used, count, i)
      {
        var taken := BitmapTest(i);
        ScanOne(used, i, run);
        if taken {
          run := 0;
        } else {
          if run == 0 { start := i; }
          run := run + 1;
          if run == count {
            ScanFinds(used, count, i + 1);
            FitIsRun(used, count, start);
            CountTake(used, start, count);
            MarkUsed(start, count);
            freePages := freePages - count;
            PageNumber(start);
            return start * PAGE;
          }
        }
        ScanOn(used, count, i + 1, run);
      }
      NoRunAtAll(used, count);
      return 0;
    }

    lemma ScanStart(used: seq<bool>, n: nat)
      requires n > 0
      ensures Scanned(used, 0, 0) && NoneWithin(used, n, 0)
    {
    }

    lemma ScanOne(used: seq<bool>, i: nat, run: nat)
      requires i < |used| && Scanned(used, i, run)
      ensures Scanned(used, i + 1, if used[i] then 0 else run + 1)
    {
    }

    lemma FitIsRun(used: seq<bool>, n: nat, s: nat)
      requires FirstFit(used, n, s)
      ensures Run(used, s, n) && s + n <= |used|
    {
    }

    lemma NoRunAtAll(used: seq<bool>, n: nat)
      requires NoneWithin(used, n, |used|)
      ensures forall s: nat :: !Run(used, s, n)
    {
    }

    /** pmm_free_pages: pages already free, or beyond the map, are left alone. */
    method FreePages(addr: nat, count: nat)
      requires Valid()
      modifies this`freePages, bitmap
      ensures Valid() && Used() == SetRange(old(Used()), addr / PAGE, count, false)
    {
      hide UsedMap, CountFree;
      var start := addr / PAGE;
      var i := start;
      while i < start + count && i < totalPages
        invariant start <= i <= start + count && Valid()
        invariant i > totalPages ==> i == start
        invariant Used() == SetRange(old(Used()), start, i - start, false)
      {
        var taken := BitmapTest(i);
        if taken {
          CountSet(Used(), i, false);
          BitmapClear(i);
          freePages := freePages + 1;
        }
        i := i + 1;
      }
    }

    /** pmm_find_contiguous: the first longest run of free pages, if it is long enough. */
    method FindContiguous(minSize: nat) returns (addr: nat, size: nat)
      requires Valid()
      ensures (forall s: nat, n: nat :: Run(Used(), s, n) ==> n < (minSize + PAGE - 1) / PAGE) ==> addr == 0 && size == 0
      ensures (exists s: nat, n: nat :: n > 0 && Run(Used(), s, n) && n >= (minSize + PAGE - 1) / PAGE) ==>
        addr % PAGE == 0 && size % PAGE == 0 && LongestRun(Used(), addr / PAGE, size / PAGE)
    {
      hide Run, Scanned, BestBefore, UsedMap, LongestRun;
      ghost var used := Used();
      var minPages := (minSize + PAGE - 1) / PAGE;
      var bestStart, bestLen, run, start := 0, 0, 0, 0;
      BestStart(used);
      for i := 0 to totalPages
        invariant run <= i && (run > 0 ==> start == i - run)
        invariant Scanned(used, i, run) && BestBefore(used, i - run, bestStart, bestLen)
      {
        var taken := BitmapTest(i);
        ScanOne(used, i, run);
        if taken {
          CloseRun(used, i, run, bestStart, bestLen);
          if run > bestLen { bestStart, bestLen := start, run; }
          KeepBest(used, i, bestStart, bestLen);
          run := 0;
        } else {
          if run == 0 { start := i; }
          run := run + 1;
        }
      }
      CloseRun(used, totalPages, run, bestStart, bestLen);
      if run > bestLen { bestStart, bestLen := start, run; }
      BestIsLongest(used, bestStart, bestLen);
      LongestBounds(used, bestStart, bestLen);
      if bestLen < minPages { return 0, 0; }
      PageNumber(bestStart);
      PageNumber(bestLen);
      assert Run(Used(), bestStart, bestLen) && LongestRun(Used(), bestStart, bestLen);
      return bestStart * PAGE, bestLen * PAGE;
    }

    lemma BestStart(used: seq<bool>)
      ensures Scanned(used, 0, 0) && BestBefore(used, 0, 0, 0)
    {
    }

    lemma LongestBounds(used: seq<bool>, s: nat, n: nat)
      requires LongestRun(used, s, n)
      ensures Run(used, s, n) && forall r: nat, m: nat :: Run(used, r, m) ==> m <= n
    {
    }
  }
}
