/**
 The demand-paged kernel heap (arch/x86_64/vmm.c): kmalloc hands out addresses, page faults bring
 in frames, kfree gives them back.  Runs of these three operations keep every frame in one hand:
 free, page table, or exactly one heap page.
 */
module Vmm {
  import opened PageMap
  import opened Paging
  import Words

  const TWO64: nat := 0x1_0000_0000_0000_0000
  const HEAP_BASE: nat := 0xffff_ffff_8800_0000
  const HEAP_PAGES: nat := 32768
  const HEAP_END: nat := 0xffff_ffff_9000_0000

  /** root is the table CR3 points to, next the heap_next of the bump allocator. */
  datatype Heap = Heap(mem: Mem, root: nat, next: nat)

  function HeapPage(k: nat): nat { HEAP_BASE + k * PAGE }

  // ---- frames and owners --------------------------------------------------------------------

  /** The heap pages that have a frame. */
  function HeapSet(m: Mem, root: nat): set<nat> {
    set k: nat | k < HEAP_PAGES && Translate(m.tables, root, HeapPage(k)).Page?
  }

  /** A frame below the end of the page map that is in use, is not page 0 and is not a page table. */
  ghost predicate HeapFrame(m: Mem, p: nat) {
    0 < p / PAGE < |m.used| && m.used[p / PAGE] && p % PAGE == 0 && p !in m.tables
  }

  ghost predicate OwnedPage(m: Mem, root: nat, k: nat) {
    match Translate(m.tables, root, HeapPage(k))
    case NotMapped => true
    case Large(_) => false
    case Page(e) => HeapFrame(m, PageOf(e))
  }

  /** Two different heap pages have two different frames. */
  ghost predicate Apart(m: Mem, root: nat, j: nat, k: nat) {
    var a, b := Translate(m.tables, root, HeapPage(j)), Translate(m.tables, root, HeapPage(k));
    j != k && a.Page? && b.Page? ==> PageOf(a.pte) != PageOf(b.pte)
  }

  ghost predicate Owned(m: Mem, root: nat) {
    && (forall k: nat :: k < HEAP_PAGES ==> OwnedPage(m, root, k))
    && (forall j: nat, k: nat :: j < HEAP_PAGES && k < HEAP_PAGES ==> Apart(m, root, j, k))
  }

  /** Every frame that is in play: free, a page table, or behind a heap page. */
  function Total(m: Mem, root: nat): nat {
    CountFree(m.used) + |m.tables.Keys| + |HeapSet(m, root)|
  }

  ghost predicate Inv(h: Heap) {
    MemInv(h.mem, h.root) && Owned(h.mem, h.root)
  }

  // ---- addresses ------------------------------------------------------------------------------

  lemma HeapPageDigits(k: nat)
    requires k < HEAP_PAGES
    ensures HeapPage(k) / 0x1000 == 0xf_ffff_fff8_8000 + k && HeapPage(k) % PAGE == 0
  {
  }

  /** The two lower table indices of a heap page are the digits of its number. */
  lemma HeapPageIndices(k: nat)
    requires k < HEAP_PAGES
    ensures Index(HeapPage(k), 3) == k % 512 && Index(HeapPage(k), 2) == 64 + k / 512
  {
    var d, r := k / 512, k % 512;
    assert k == d * 512 + r && d < 64;
    assert HeapPage(k) == 0x7ff_ffff_fc40 * 0x20_0000 + d * 0x20_0000 + r * 0x1000;
    assert HeapPage(k) / 0x20_0000 == 0x7ff_ffff_fc40 + d;
    assert HeapPage(k) / 0x1000 == (0x7ff_ffff_fc40 + d) * 512 + r;
  }

  /** Two heap pages that share all four table indices are the same page. */
  lemma HeapPagesDiffer(j: nat, k: nat)
    requires j < HEAP_PAGES && k < HEAP_PAGES && SamePage(HeapPage(j), HeapPage(k))
    ensures j == k
  {
    hide Index, HeapPage;
    HeapPageIndices(j);
    HeapPageIndices(k);
    assert Index(HeapPage(j), 3) == Index(HeapPage(k), 3);
    assert Index(HeapPage(j), 2) == Index(HeapPage(k), 2);
  }

  /** Addresses in one page are translated alike. */
  lemma PageTranslates(T: map<nat, seq<nat>>, root: nat, v: nat)
    ensures Translate(T, root, PageOf(v)) == Translate(T, root, v)
  {
    hide Present, Huge, EntryAt;
    forall l: nat | l < 4 ensures Index(PageOf(v), l) == Index(v, l) { PageIndex(v, l); }
  }

  lemma PageIndex(v: nat, l: nat)
    requires l < 4
    ensures Index(PageOf(v), l) == Index(v, l)
  {
    var q, r := v / PAGE, v % PAGE;
    assert v == q * PAGE + r && PageOf(v) == q * PAGE;
    if l == 0 { assert v / 0x80_0000_0000 == q / 0x800_0000 && PageOf(v) / 0x80_0000_0000 == q / 0x800_0000; }
    else if l == 1 { assert v / 0x4000_0000 == q / 0x4_0000 && PageOf(v) / 0x4000_0000 == q / 0x4_0000; }
    else if l == 2 { assert v / 0x20_0000 == q / 512 && PageOf(v) / 0x20_0000 == q / 512; }
  }

  /** Every page-aligned address in the heap is a heap page. */
  lemma HeapPageNumber(v: nat)
    requires HEAP_BASE <= v < HEAP_END
    ensures var k := (v - HEAP_BASE) / PAGE; 0 <= k < HEAP_PAGES && PageOf(v) == HeapPage(k)
  {
  }

  // ---- vmm_demand_page -------------------------------------------------------------------------

  datatype Fault = Refused | Served | OutOfFrames

  function DemandPage(m: Mem, root: nat, addr: nat): (Mem, Fault) {
    if addr < HEAP_BASE || addr >= HEAP_END then (m, Refused)
    else
      var f := FirstFree(m.used);
      if f == 0 || f == |m.used| then (m, OutOfFrames)
      else
        var m1 := m.(used := m.used[f := true]);
        var (m2, o) := MapPage(m1, root, PageOf(addr), f * PAGE, PRESENT_WRITABLE);
        (m2, if o.Halted? then OutOfFrames else Served)
  }

  lemma TakeFrame(m: Mem, root: nat, f: nat)
    requires MemInv(m, root) && f < |m.used| && !m.used[f]
    ensures var m1 := m.(used := m.used[f := true]);
      MemInv(m1, root) && CountFree(m1.used) == CountFree(m.used) - 1 && f > 0 && HeapFrame(m1, f * PAGE)
  {
    hide Tree, CountFree;
    CountSet(m.used, f, true);
    FrameNumber(f);
  }

  lemma FramesStay(m: Mem, m': Mem, p: nat)
    requires Grown(m, m') && HeapFrame(m, p)
    ensures HeapFrame(m', p)
  {
    hide CountFree;
  }

  /** What serving a fault on heap page k has done: k has a frame that was free, nothing else moved. */
  ghost predicate Brought(m: Mem, m': Mem, root: nat, k: nat, f: nat) {
    && f < |m.used| && !m.used[f]
    && MemInv(m', root) && HeapFrame(m', f * PAGE)
    && Grown(m.(used := m.used[f := true]), m')
    && Translate(m'.tables, root, HeapPage(k)) == Page(f * PAGE + PRESENT_WRITABLE)
    && OthersSame(m, m', root, HeapPage(k))
  }

  lemma MapBrings(m: Mem, root: nat, k: nat)
    requires MemInv(m, root) && k < HEAP_PAGES && Translate(m.tables, root, HeapPage(k)) == NotMapped
    ensures var (m', r) := DemandPage(m, root, HeapPage(k));
      && (r.OutOfFrames? <==> CountFree(m.used) < 1 + Missing(m.tables, root, HeapPage(k), 0))
      && !r.Refused?
      && (r.Served? ==> Brought(m, m', root, k, FirstFree(m.used)))
  {
    hide MemInv, Translate, MapPage, Grown, EndsIn, OthersSame, Missing, CountFree, HeapFrame;
    var f, v := FirstFree(m.used), HeapPage(k);
    HeapPageDigits(k);
    CountBounds(m.used);
    PageZeroUsed(m, root);
    if f < |m.used| {
      TakeFrame(m, root, f);
      var m1 := m.(used := m.used[f := true]);
      MapPageCorrect(m1, root, v, f * PAGE, PRESENT_WRITABLE);
      var (m', o) := MapPage(m1, root, v, f * PAGE, PRESENT_WRITABLE);
      if o.Mapped? {
        FrameNumber(f);
        ReadWrite();
        EndsInPage(m', root, v, f * PAGE, PRESENT_WRITABLE);
        FramesStay(m1, m', f * PAGE);
        OthersByTables(m, m1, m', root, v);
      }
    }
  }

  lemma ReadWrite()
    ensures Present(PRESENT_WRITABLE)
  {
  }

  lemma PageZeroUsed(m: Mem, root: nat)
    requires MemInv(m, root)
    ensures FirstFree(m.used) == 0 ==> |m.used| == 0
  {
  }

  lemma OthersByTables(m: Mem, m1: Mem, m': Mem, root: nat, v: nat)
    requires m1.tables == m.tables && OthersSame(m1, m', root, v)
    ensures OthersSame(m, m', root, v)
  {
    hide Translate;
  }

  lemma OtherPage(m: Mem, m': Mem, root: nat, j: nat, k: nat)
    requires OthersSame(m, m', root, HeapPage(k)) && j < HEAP_PAGES && k < HEAP_PAGES && j != k
    ensures Translate(m'.tables, root, HeapPage(j)) == Translate(m.tables, root, HeapPage(j))
  {
    hide Translate, HeapPage;
    if SamePage(HeapPage(k), HeapPage(j)) { HeapPagesDiffer(k, j); }
  }

  /** Pages other than k keep their frames, and no such frame is f. */
  lemma OldPagesKept(m: Mem, m': Mem, root: nat, j: nat, k: nat, f: nat)
    requires Owned(m, root) && Brought(m, m', root, k, f) && j < HEAP_PAGES && k < HEAP_PAGES && j != k
    ensures OwnedPage(m', root, j)
    ensures var e := Translate(m'.tables, root, HeapPage(j)); e.Page? ==> PageOf(e.pte) != f * PAGE
  {
    hide Translate, HeapPage, MemInv, Grown, OthersSame, Apart;
    OtherPage(m, m', root, j, k);
    assert OwnedPage(m, root, j);
    match Translate(m.tables, root, HeapPage(j)) {
      case Page(e) =>
        FrameNumber(f);
        FramesStay(m.(used := m.used[f := true]), m', PageOf(e));
      case _ =>
    }
  }

  lemma BroughtOwned(m: Mem, m': Mem, root: nat, k: nat, f: nat)
    requires Owned(m, root) && Brought(m, m', root, k, f) && k < HEAP_PAGES
    ensures Owned(m', root)
  {
    hide Translate, HeapPage, MemInv, Grown, OthersSame, HeapFrame, Owned, OwnedPage, Apart;
    forall j: nat | j < HEAP_PAGES ensures OwnedPage(m', root, j) {
      if j == k { NewPageOwned(m, m', root, k, f); } else { OldPagesKept(m, m', root, j, k, f); }
    }
    forall i: nat, j: nat | i < HEAP_PAGES && j < HEAP_PAGES ensures Apart(m', root, i, j) {
      PairApart(m, m', root, i, j, k, f);
    }
    MakeOwned(m', root);
  }

  lemma MakeOwned(m: Mem, root: nat)
    requires forall k: nat :: k < HEAP_PAGES ==> OwnedPage(m, root, k)
    requires forall j: nat, k: nat :: j < HEAP_PAGES && k < HEAP_PAGES ==> Apart(m, root, j, k)
    ensures Owned(m, root)
  {
    hide OwnedPage, Apart;
  }

  lemma NewPageOwned(m: Mem, m': Mem, root: nat, k: nat, f: nat)
    requires Brought(m, m', root, k, f)
    ensures OwnedPage(m', root, k) && PageOf(Translate(m'.tables, root, HeapPage(k)).pte) == f * PAGE
  {
    hide Translate, HeapPage, MemInv, Grown, OthersSame, HeapFrame;
  }

  lemma PairApart(m: Mem, m': Mem, root: nat, i: nat, j: nat, k: nat, f: nat)
    requires Owned(m, root) && Brought(m, m', root, k, f) && i < HEAP_PAGES && j < HEAP_PAGES && k < HEAP_PAGES
    ensures Apart(m', root, i, j)
  {
    hide Translate, HeapPage, MemInv, Grown, OthersSame, HeapFrame, OwnedPage, Brought;
    NewPageOwned(m, m', root, k, f);
    if i != k { OldPagesKept(m, m', root, i, k, f); }
    if j != k { OldPagesKept(m, m', root, j, k, f); }
    if i != k && j != k {
      assert Apart(m, root, i, j);
      BroughtOthers(m, m', root, i, k, f);
      BroughtOthers(m, m', root, j, k, f);
    }
  }

  lemma BroughtOthers(m: Mem, m': Mem, root: nat, j: nat, k: nat, f: nat)
    requires Brought(m, m', root, k, f) && j < HEAP_PAGES && k < HEAP_PAGES && j != k
    ensures Translate(m'.tables, root, HeapPage(j)) == Translate(m.tables, root, HeapPage(j))
  {
    hide Translate, HeapPage, MemInv, Grown, OthersSame, HeapFrame;
    OtherPage(m, m', root, j, k);
  }

  lemma BroughtCounts(m: Mem, m': Mem, root: nat, k: nat, f: nat)
    requires Brought(m, m', root, k, f) && k < HEAP_PAGES && Translate(m.tables, root, HeapPage(k)) == NotMapped
    ensures Total(m', root) == Total(m, root)
  {
    hide Translate, HeapPage, MemInv, CountFree, OthersSame, HeapFrame;
    CountSet(m.used, f, true);
    var a, b := HeapSet(m, root), HeapSet(m', root);
    forall j: nat ensures j in b <==> j in a || j == k {
      if j < HEAP_PAGES && j != k { OtherPage(m, m', root, j, k); }
    }
    assert b == a + {k};
  }

  /**
   vmm_demand_page on a not-present fault: refused exactly outside the heap; inside, it halts
   exactly when the frames do not suffice for the page and the missing tables; else the page gets
   a frame that was free, no other page changes, and all frames stay accounted for.
   */
  lemma DemandPageKeeps(h: Heap, addr: nat)
    requires Inv(h) && Translate(h.mem.tables, h.root, addr) == NotMapped
    ensures var (m', r) := DemandPage(h.mem, h.root, addr);
      && (r.Refused? <==> addr < HEAP_BASE || addr >= HEAP_END)
      && (r.Refused? ==> m' == h.mem)
      && (r.OutOfFrames? <==> !r.Refused? && CountFree(h.mem.used) < 1 + Missing(h.mem.tables, h.root, PageOf(addr), 0))
      && (r.Served? ==>
            && Inv(h.(mem := m')) && Total(m', h.root) == Total(h.mem, h.root)
            && Brought(h.mem, m', h.root, (addr - HEAP_BASE) / PAGE, FirstFree(h.mem.used)))
  {
    hide MemInv, Owned, Translate, Grown, Missing, CountFree, HeapFrame, Total, OthersSame, MapPage;
    if HEAP_BASE <= addr < HEAP_END {
      HeapPageNumber(addr);
      PageTranslates(h.mem.tables, h.root, addr);
      var k := (addr - HEAP_BASE) / PAGE;
      MapBrings(h.mem, h.root, k);
      SameFault(h.mem, h.root, addr, k);
      var (m', r) := DemandPage(h.mem, h.root, addr);
      if r.Served? {
        var f := FirstFree(h.mem.used);
        BroughtOwned(h.mem, m', h.root, k, f);
        BroughtCounts(h.mem, m', h.root, k, f);
      }
    }
  }

  lemma SameFault(m: Mem, root: nat, addr: nat, k: nat)
    requires HEAP_BASE <= addr < HEAP_END && PageOf(addr) == HeapPage(k) && k < HEAP_PAGES
    ensures DemandPage(m, root, addr) == DemandPage(m, root, HeapPage(k))
  {
    hide MapPage, FirstFree;
    HeapPageDigits(k);
  }

  // ---- kfree ----------------------------------------------------------------------------------

  /** pmm_free_pages of one frame. */
  function FreeFrame(m: Mem, p: nat): Mem {
    m.(used := SetRange(m.used, p / PAGE, 1, false))
  }

  /** One round of kfree's loop. */
  function FreeOne(m: Mem, root: nat, page: nat): Mem {
    var (m1, p) := Unmap(m, root, page);
    if p != 0 then FreeFrame(m1, p) else m1
  }

  function FreeFrom(m: Mem, root: nat, page: nat, end: nat): Mem
    decreases if page < end then end - page else 0
  {
    if page < end then FreeFrom(FreeOne(m, root, page), root, page + PAGE, end) else m
  }

  function Kfree(m: Mem, root: nat, ptr: nat, size: nat): Mem {
    if ptr == 0 || size == 0 then m
    else FreeFrom(m, root, PageOf(ptr), PageOf((ptr + size + 0xFFF) % TWO64))
  }

  /** From m to m', heap page k has lost its frame, if it had one, and nothing else moved. */
  ghost predicate Dropped(m: Mem, m': Mem, root: nat, k: nat) {
    && MemInv(m', root) && m'.tables.Keys == m.tables.Keys
    && OthersSame(m, m', root, HeapPage(k))
    && Translate(m'.tables, root, HeapPage(k)) == NotMapped
    && match Translate(m.tables, root, HeapPage(k))
       case Page(e) => PageOf(e) / PAGE < |m.used| && m.used[PageOf(e) / PAGE] && m'.used == m.used[PageOf(e) / PAGE := false]
       case _ => m' == m
  }

  lemma ClearFrame(m: Mem, root: nat, p: nat)
    requires MemInv(m, root) && HeapFrame(m, p)
    ensures MemInv(FreeFrame(m, p), root) && FreeFrame(m, p).used == m.used[p / PAGE := false]
  {
    hide Tree;
    assert SetRange(m.used, p / PAGE, 1, false) == m.used[p / PAGE := false];
    forall t | t in m.tables ensures t / PAGE != p / PAGE {
      assert t % PAGE == 0 && p % PAGE == 0 && t != p;
    }
  }

  lemma FreeOneDrops(m: Mem, root: nat, k: nat)
    requires MemInv(m, root) && Owned(m, root) && k < HEAP_PAGES
    ensures Dropped(m, FreeOne(m, root, HeapPage(k)), root, k)
  {
    hide MemInv, Translate, Unmap, HeapPage, SetRange, FreeFrame, OthersSame, Apart;
    UnmapCorrect(m, root, HeapPage(k));
    assert OwnedPage(m, root, k);
    var (m1, p) := Unmap(m, root, HeapPage(k));
    SameSame(m, root, HeapPage(k));
    match Translate(m.tables, root, HeapPage(k)) {
      case Page(e) =>
        ClearFrame(m1, root, p);
        OthersSameUsed(m, m1, FreeFrame(m1, p), root, HeapPage(k));
      case _ =>
    }
  }

  lemma SameSame(m: Mem, root: nat, v: nat)
    ensures OthersSame(m, m, root, v)
  {
  }

  lemma OthersSameUsed(m: Mem, m1: Mem, m2: Mem, root: nat, v: nat)
    requires OthersSame(m, m1, root, v) && Translate(m.tables, root, v).Page?
    requires m2 == FreeFrame(m1, PageOf(Translate(m.tables, root, v).pte))
    ensures OthersSame(m, m2, root, v) && m2.tables == m1.tables
  {
    hide Translate, SetRange;
  }

  lemma DroppedOwned(m: Mem, m': Mem, root: nat, k: nat)
    requires Owned(m, root) && Dropped(m, m', root, k) && k < HEAP_PAGES
    ensures Owned(m', root) && Total(m', root) == Total(m, root)
  {
    hide Translate, HeapPage, MemInv, OthersSame, HeapFrame, Owned, OwnedPage, Apart, Total;
    forall j: nat | j < HEAP_PAGES ensures OwnedPage(m', root, j) { DroppedPage(m, m', root, j, k); }
    forall i: nat, j: nat | i < HEAP_PAGES && j < HEAP_PAGES ensures Apart(m', root, i, j) { DroppedPair(m, m', root, i, j, k); }
    MakeOwned(m', root);
    DroppedCounts(m, m', root, k);
  }

  lemma DroppedPage(m: Mem, m': Mem, root: nat, j: nat, k: nat)
    requires Owned(m, root) && Dropped(m, m', root, k) && j < HEAP_PAGES && k < HEAP_PAGES
    ensures OwnedPage(m', root, j)
  {
    hide Translate, HeapPage, MemInv, OthersSame;
    if j != k {
      OtherPage(m, m', root, j, k);
      assert OwnedPage(m, root, j) && OwnedPage(m, root, k) && Apart(m, root, j, k);
      assert forall t :: t in m'.tables ==> t in m.tables by { assert forall t :: t in m'.tables ==> t in m'.tables.Keys; }
    }
  }

  lemma DroppedPair(m: Mem, m': Mem, root: nat, i: nat, j: nat, k: nat)
    requires Owned(m, root) && Dropped(m, m', root, k) && i < HEAP_PAGES && j < HEAP_PAGES && k < HEAP_PAGES
    ensures Apart(m', root, i, j)
  {
    hide Translate, HeapPage, MemInv, OthersSame, OwnedPage, HeapFrame;
    if i != k && j != k {
      OtherPage(m, m', root, i, k);
      OtherPage(m, m', root, j, k);
      assert Apart(m, root, i, j);
    }
  }

  lemma DroppedCounts(m: Mem, m': Mem, root: nat, k: nat)
    requires Dropped(m, m', root, k) && k < HEAP_PAGES
    ensures Total(m', root) == Total(m, root)
  {
    hide Translate, HeapPage, MemInv, OthersSame, CountFree;
    var a, b := HeapSet(m, root), HeapSet(m', root);
    forall j: nat ensures j in b <==> j in a && j != k {
      if j < HEAP_PAGES && j != k { OtherPage(m, m', root, j, k); }
    }
    assert b == a - {k};
    if k in a { CountSet(m.used, PageOf(Translate(m.tables, root, HeapPage(k)).pte) / PAGE, false); }
  }

  /** Heap pages i .. n - 1 have lost their frames, the others have kept theirs. */
  ghost predicate Cleared(m: Mem, m': Mem, root: nat, i: nat, n: nat) {
    forall j: nat :: j < HEAP_PAGES ==>
      Translate(m'.tables, root, HeapPage(j)) == if i <= j < n then NotMapped else Translate(m.tables, root, HeapPage(j))
  }

  lemma {:induction false} FreeFromKeeps(m: Mem, root: nat, i: nat, n: nat)
    requires MemInv(m, root) && Owned(m, root) && i <= n <= HEAP_PAGES
    ensures var m' := FreeFrom(m, root, HeapPage(i), HeapPage(n));
      && MemInv(m', root) && Owned(m', root) && Total(m', root) == Total(m, root)
      && m'.tables.Keys == m.tables.Keys && Cleared(m, m', root, i, n)
    decreases n - i
  {
    hide MemInv, Owned, Translate, FreeOne, Total, OthersSame;
    if i < n {
      FreeOneDrops(m, root, i);
      var m1 := FreeOne(m, root, HeapPage(i));
      DroppedOwned(m, m1, root, i);
      assert HeapPage(i) + PAGE == HeapPage(i + 1) && HeapPage(i) < HeapPage(n);
      FreeFromKeeps(m1, root, i + 1, n);
      forall j: nat | j < HEAP_PAGES && j != i
        ensures Translate(m1.tables, root, HeapPage(j)) == Translate(m.tables, root, HeapPage(j)) { OtherPage(m, m1, root, j, i); }
    }
  }

  /**
   kfree of a range of the heap: exactly the pages that the range touches lose their frames, whoever
   else uses them, and all frames stay accounted for.
   */
  lemma KfreeKeeps(h: Heap, ptr: nat, size: nat)
    requires Inv(h) && (ptr == 0 || size == 0 || (HEAP_BASE <= ptr && ptr + size <= HEAP_END))
    ensures var m' := Kfree(h.mem, h.root, ptr, size);
      && Inv(h.(mem := m')) && Total(m', h.root) == Total(h.mem, h.root) && m'.tables.Keys == h.mem.tables.Keys
      && forall j: nat :: j < HEAP_PAGES ==>
        var touched := ptr != 0 && size != 0 && ptr < HeapPage(j) + PAGE && HeapPage(j) < ptr + size;
        Translate(m'.tables, h.root, HeapPage(j)) == if touched then NotMapped else Translate(h.mem.tables, h.root, HeapPage(j))
  {
    hide MemInv, Owned, Translate, FreeFrom, Total;
    if ptr != 0 && size != 0 {
      var i, n := KfreeRange(ptr, size);
      FreeFromKeeps(h.mem, h.root, i, n);
    }
  }

  lemma KfreeRange(ptr: nat, size: nat) returns (i: nat, n: nat)
    requires HEAP_BASE <= ptr && ptr + size <= HEAP_END && size > 0
    ensures i <= n <= HEAP_PAGES
    ensures PageOf(ptr) == HeapPage(i) && PageOf((ptr + size + 0xFFF) % TWO64) == HeapPage(n)
    ensures forall j: nat :: i <= j < n <==> ptr < HeapPage(j) + PAGE && HeapPage(j) < ptr + size
  {
    i := (ptr - HEAP_BASE) / PAGE;
    n := (ptr + size + 0xFFF - HEAP_BASE) / PAGE;
    assert (ptr + size + 0xFFF) % TWO64 == ptr + size + 0xFFF;
  }

  // ---- kmalloc --------------------------------------------------------------------------------

  datatype Block = Null | Block(addr: nat) | Exhausted

  /** `(x + 15) & ~15` on 64-bit words. */
  function Round16(x: nat): nat { (x + 15) % TWO64 / 16 * 16 }

  function Kmalloc(next: nat, size: nat): (nat, Block) {
    if size == 0 then (next, Null)
    else
      var addr := Round16(next);
      var next' := (addr + Round16(size)) % TWO64;
      (next', if next' > HEAP_END then Exhausted else Block(addr))
  }

  ghost predicate NextInv(next: nat) {
    HEAP_BASE <= next <= HEAP_END && next % 16 == 0
  }

  /** A block served from next: `size` bytes of the heap between the old and the new heap_next. */
  ghost predicate FreshBlock(next: nat, size: nat, next': nat, b: Block) {
    match b
    case Null => size == 0 && next' == next
    case Block(a) => size > 0 && a % 16 == 0 && next <= a && a + size <= next' && NextInv(next')
    case Exhausted => next + size > HEAP_END
  }

  /**
   kmalloc serves fresh bytes of the heap, or halts when the heap has too few left, exactly for the
   sizes whose end address does not wrap around the 64-bit address space.
   */
  lemma KmallocFreshIff(next: nat, size: nat)
    requires NextInv(next) && size < TWO64
    ensures var (next', b) := Kmalloc(next, size);
      FreshBlock(next, size, next', b) <==> size + next <= TWO64 - 16
  {
    if size > 0 {
      Aligned16(next);
      RoundUp(size);
      if size + next <= TWO64 - 16 { NoWrap(next, size); } else { Wraps(next, size); }
    }
  }

  lemma Aligned16(next: nat)
    requires NextInv(next)
    ensures Round16(next) == next
  {
  }

  lemma NoWrap(next: nat, size: nat)
    requires NextInv(next) && 0 < size && size + next <= TWO64 - 16 && Round16(next) == next
    requires size <= Round16(size) < size + 16 && Round16(size) % 16 == 0
    ensures var (next', b) := Kmalloc(next, size); FreshBlock(next, size, next', b)
  {
    hide Round16;
    Multiples(next, Round16(size));
  }

  lemma Multiples(a: nat, b: nat)
    requires a % 16 == 0 && b % 16 == 0
    ensures (a + b) % 16 == 0
  {
  }

  lemma Wraps(next: nat, size: nat)
    requires NextInv(next) && TWO64 - 16 < size + next && size < TWO64 && Round16(next) == next
    requires size + 15 < TWO64 ==> size <= Round16(size) < size + 16 && Round16(size) % 16 == 0
    requires size + 15 >= TWO64 ==> Round16(size) == 0
    ensures var (next', b) := Kmalloc(next, size); !FreshBlock(next, size, next', b)
  {
    hide Round16;
    var sum := next + Round16(size);
    if size + 15 < TWO64 {
      Multiples(next, Round16(size));
      assert sum >= TWO64;
      assert sum % TWO64 == sum - TWO64;
    }
  }

  lemma RoundUp(size: nat)
    requires 0 < size < TWO64
    ensures size + 15 < TWO64 ==> size <= Round16(size) < size + 16 && Round16(size) % 16 == 0
    ensures size + 15 >= TWO64 ==> Round16(size) == 0
  {
  }

  /** A block starts at the old heap_next, and heap_next moves on by the size rounded up to 16: no byte more is used. */
  lemma KmallocIsTight(next: nat, size: nat)
    requires NextInv(next) && 0 < size && size + next <= TWO64 - 16
    ensures var (next', b) := Kmalloc(next, size);
      && (b.Exhausted? <==> next' > HEAP_END) && (!b.Exhausted? ==> b == Block(next))
      && next + size <= next' < next + size + 16 && next' % 16 == 0
  {
    hide Round16;
    Aligned16(next);
    RoundUp(size);
    Multiples(next, Round16(size));
  }

  /** A request that wraps is served with no room at all: heap_next falls out of the heap. */
  lemma KmallocWraps()
    ensures Kmalloc(HEAP_BASE, 0x7800_0000) == (0, Block(HEAP_BASE)) && !NextInv(0)
  {
  }

  // ---- runs -----------------------------------------------------------------------------------

  datatype Step = Malloc(size: nat) | Touch(addr: nat) | Free(ptr: nat, size: nat)

  datatype Result = Running(heap: Heap) | Stopped

  /** A page fault needs a page that is not present (arch/x86_64/idt.c:80); frees stay inside the heap. */
  predicate Enabled(h: Heap, s: Step) {
    match s
    case Malloc(size) => size < TWO64
    case Touch(addr) => Translate(h.mem.tables, h.root, addr) == NotMapped
    case Free(ptr, size) => ptr == 0 || size == 0 || (HEAP_BASE <= ptr && ptr + size <= HEAP_END)
  }

  function Next(h: Heap, s: Step): Result {
    match s
    case Malloc(size) => var (next, b) := Kmalloc(h.next, size); if b.Exhausted? then Stopped else Running(h.(next := next))
    case Touch(addr) => var (m, r) := DemandPage(h.mem, h.root, addr); if r.Served? then Running(h.(mem := m)) else Stopped
    case Free(ptr, size) => Running(h.(mem := Kfree(h.mem, h.root, ptr, size)))
  }

  ghost predicate IsRun(h: Heap, steps: seq<Step>, h': Heap)
    decreases |steps|
  {
    if steps == [] then h' == h
    else Enabled(h, steps[0]) && Next(h, steps[0]).Running? && IsRun(Next(h, steps[0]).heap, steps[1..], h')
  }

  /** At vmm_init no heap page is mapped. */
  lemma InitInv(m: Mem, root: nat)
    requires MemInv(m, root) && HeapSet(m, root) == {}
    requires forall k: nat :: k < HEAP_PAGES ==> !Translate(m.tables, root, HeapPage(k)).Large?
    ensures Inv(Heap(m, root, HEAP_BASE)) && NextInv(HEAP_BASE)
  {
    hide MemInv, Translate, HeapPage;
    forall k: nat | k < HEAP_PAGES ensures Translate(m.tables, root, HeapPage(k)).NotMapped? { assert k !in HeapSet(m, root); }
  }

  lemma StepKeeps(h: Heap, s: Step)
    requires Inv(h) && Enabled(h, s) && Next(h, s).Running?
    ensures var h' := Next(h, s).heap; Inv(h') && h'.root == h.root && Total(h'.mem, h.root) == Total(h.mem, h.root)
  {
    hide MemInv, Owned, Translate, Total, Kfree, DemandPage, Kmalloc;
    match s {
      case Malloc(size) =>
      case Touch(addr) => DemandPageKeeps(h, addr);
      case Free(ptr, size) => KfreeKeeps(h, ptr, size);
    }
  }

  /**
   In every run of kmalloc, faults and kfree: mapped heap pages have pairwise distinct frames, these
   and all page tables are marked used, no frame is both, and free + table + heap frames is constant.
   */
  lemma {:induction false} RunKeeps(h: Heap, steps: seq<Step>, h': Heap)
    requires Inv(h) && IsRun(h, steps, h')
    ensures Inv(h') && h'.root == h.root && Total(h'.mem, h.root) == Total(h.mem, h.root)
    decreases |steps|
  {
    hide Inv, Total, Enabled, Next;
    if steps != [] {
      StepKeeps(h, steps[0]);
      RunKeeps(Next(h, steps[0]).heap, steps[1..], h');
    }
  }

  // ---- heap pages are writable -----------------------------------------------------------------

  /** Present and writable: bits 0 and 1. */
  predicate ReadWrite2(e: nat) { Words.Bit(e, 0) && Words.Bit(e, 1) }

  /** On the way down to any heap page, whatever is present is writable. */
  ghost predicate HeapWritable(m: Mem, root: nat) {
    forall k: nat, n: nat :: k < HEAP_PAGES && n < 4 && Present(EntryOn(m.tables, root, HeapPage(k), n)) ==>
      ReadWrite2(EntryOn(m.tables, root, HeapPage(k), n))
  }

  /** The whole way down to v is present and writable. */
  ghost predicate WritableWay(m: Mem, root: nat, v: nat) {
    forall n: nat :: n < 4 ==> ReadWrite2(EntryOn(m.tables, root, v, n))
  }

  /** What serving a fault on page v has done to the entries on the way down to any page. */
  ghost predicate LinksMade(m: Mem, m': Mem, root: nat, v: nat) {
    && LinksOnly(m.tables, m'.tables, root) && LeavesStay(m.tables, m'.tables, root, v)
    && (forall n: nat :: n < 3 ==> Present(EntryOn(m'.tables, root, v, n)))
    && ReadWrite2(EntryOn(m'.tables, root, v, 3))
  }

  lemma DemandPageLinks(h: Heap, addr: nat)
    requires Inv(h) && Translate(h.mem.tables, h.root, addr) == NotMapped && DemandPage(h.mem, h.root, addr).1.Served?
    ensures LinksMade(h.mem, DemandPage(h.mem, h.root, addr).0, h.root, PageOf(addr))
  {
    hide Tree, Owned, Translate, Grown, HeapFrame, OthersSame, MapPage, EntryOn, LinksOnly, LeavesStay, SamePage, Huge, ReadWriteLink;
    hide EndsIn, Missing, CountFree, Brought, Index;
    var f := FirstFree(h.mem.used);
    HeapPageNumber(addr);
    PageTranslates(h.mem.tables, h.root, addr);
    MapBrings(h.mem, h.root, (addr - HEAP_BASE) / PAGE);
    PageZeroUsed(h.mem, h.root);
    TakeFrame(h.mem, h.root, f);
    MapPageCorrect(h.mem.(used := h.mem.used[f := true]), h.root, PageOf(addr), f * PAGE, PRESENT_WRITABLE);
    MapPageLinks(h.mem.(used := h.mem.used[f := true]), h.root, PageOf(addr), f * PAGE, PRESENT_WRITABLE);
    FrameNumber(f);
    LeafBits(f * PAGE);
  }

  lemma LeafBits(page: nat)
    requires page % PAGE == 0
    ensures ReadWrite2(page + PRESENT_WRITABLE)
  {
    EntryBits(page, PRESENT_WRITABLE);
    LinkBits(page);
  }

  lemma LinksKeepWritable(m: Mem, m': Mem, root: nat, k: nat)
    requires HeapWritable(m, root) && k < HEAP_PAGES && LinksMade(m, m', root, HeapPage(k))
    ensures HeapWritable(m', root) && WritableWay(m', root, HeapPage(k))
  {
    hide EntryOn, HeapPage, SamePage, ReadWriteLink;
    assert forall e :: ReadWriteLink(e) ==> ReadWrite2(e) by { FreshLinks(); }
    forall j: nat, n: nat | j < HEAP_PAGES && n < 4 && Present(EntryOn(m'.tables, root, HeapPage(j), n))
      ensures ReadWrite2(EntryOn(m'.tables, root, HeapPage(j), n))
    {
      if n == 3 && j != k && SamePage(HeapPage(k), HeapPage(j)) { HeapPagesDiffer(k, j); }
    }
  }

  lemma FreshLinks()
    ensures forall e :: ReadWriteLink(e) ==> ReadWrite2(e)
  {
  }

  /**
   A page brought in on demand is writable along its whole way down, and so stays every other heap page,
   provided that the links which were there before are writable.
   */
  lemma DemandPageWritable(h: Heap, addr: nat)
    requires Inv(h) && Translate(h.mem.tables, h.root, addr) == NotMapped && HeapWritable(h.mem, h.root)
    requires DemandPage(h.mem, h.root, addr).1.Served?
    ensures var m' := DemandPage(h.mem, h.root, addr).0; HeapWritable(m', h.root) && WritableWay(m', h.root, PageOf(addr))
  {
    hide Inv, HeapWritable, WritableWay, LinksMade, DemandPage, Translate, HeapPage;
    DemandPageLinks(h, addr);
    assert HEAP_BASE <= addr < HEAP_END by { DemandPageKeeps(h, addr); }
    HeapPageNumber(addr);
    LinksKeepWritable(h.mem, DemandPage(h.mem, h.root, addr).0, h.root, (addr - HEAP_BASE) / PAGE);
  }

  lemma UnmapKeepsWritable(m: Mem, root: nat, k: nat)
    requires MemInv(m, root) && HeapWritable(m, root) && k < HEAP_PAGES
    ensures HeapWritable(FreeOne(m, root, HeapPage(k)), root)
  {
    hide MemInv, EntryOn, HeapPage, SamePage, Unmap, SetRange;
    UnmapLinks(m, root, HeapPage(k));
    NoEntryAbsent();
    var m1 := Unmap(m, root, HeapPage(k)).0;
    var m' := FreeOne(m, root, HeapPage(k));
    forall j: nat, n: nat | j < HEAP_PAGES && n < 4 && Present(EntryOn(m'.tables, root, HeapPage(j), n))
      ensures ReadWrite2(EntryOn(m'.tables, root, HeapPage(j), n))
    {
      if n == 3 && j != k && SamePage(HeapPage(k), HeapPage(j)) { HeapPagesDiffer(k, j); }
    }
  }

  lemma {:induction false} FreeFromKeepsWritable(m: Mem, root: nat, i: nat, n: nat)
    requires MemInv(m, root) && Owned(m, root) && i <= n <= HEAP_PAGES && HeapWritable(m, root)
    ensures HeapWritable(FreeFrom(m, root, HeapPage(i), HeapPage(n)), root)
    decreases n - i
  {
    hide MemInv, Owned, Translate, FreeOne, Total, OthersSame, HeapWritable;
    if i < n {
      UnmapKeepsWritable(m, root, i);
      FreeOneDrops(m, root, i);
      DroppedOwned(m, FreeOne(m, root, HeapPage(i)), root, i);
      assert HeapPage(i) + PAGE == HeapPage(i + 1) && HeapPage(i) < HeapPage(n);
      FreeFromKeepsWritable(FreeOne(m, root, HeapPage(i)), root, i + 1, n);
    }
  }

  lemma StepKeepsWritable(h: Heap, s: Step)
    requires Inv(h) && Enabled(h, s) && Next(h, s).Running? && HeapWritable(h.mem, h.root)
    ensures HeapWritable(Next(h, s).heap.mem, h.root)
  {
    hide MemInv, Owned, Translate, FreeFrom, DemandPage, Kmalloc, HeapWritable, WritableWay;
    match s {
      case Malloc(size) =>
      case Touch(addr) => DemandPageWritable(h, addr);
      case Free(ptr, size) =>
        if ptr != 0 && size != 0 {
          var i, n := KfreeRange(ptr, size);
          FreeFromKeepsWritable(h.mem, h.root, i, n);
        }
    }
  }

  /** In every run, whatever is present on the way down to a heap page is writable, if it is at the start. */
  lemma {:induction false} RunKeepsWritable(h: Heap, steps: seq<Step>, h': Heap)
    requires Inv(h) && IsRun(h, steps, h') && HeapWritable(h.mem, h.root)
    ensures HeapWritable(h'.mem, h.root)
    decreases |steps|
  {
    hide Inv, Enabled, Next, HeapWritable, Total;
    if steps != [] {
      StepKeepsWritable(h, steps[0]);
      StepKeeps(h, steps[0]);
      RunKeepsWritable(Next(h, steps[0]).heap, steps[1..], h');
    }
  }
}
