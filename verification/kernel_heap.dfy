/** kmalloc, vmm_demand_page and kfree on the live page tables and page bitmap (arch/x86_64/vmm.c). */
module KernelHeaps {
  import opened PageMap
  import opened Paging
  import opened Vmm
  import opened AddressSpaces

  class KernelHeap {
    const space: AddressSpace
    var heapNext: nat

    ghost predicate Shape()
      reads this, space, space.pmm, space.pmm.bitmap
    {
      space.Shape()
    }

    ghost function State(): Heap
      requires Shape()
      reads this, space, space.pmm, space.pmm.bitmap
    {
      Heap(space.Contents(), space.root, heapNext)
    }

    ghost predicate Valid()
      reads this, space, space.pmm, space.pmm.bitmap
    {
      Shape() && Inv(State())
    }

    /** vmm_init, before any heap page is mapped. */
    constructor (space: AddressSpace)
      requires space.Valid() && HeapSet(space.Contents(), space.root) == {}
      requires forall k: nat :: k < HEAP_PAGES ==> !Translate(space.tables, space.root, HeapPage(k)).Large?
      ensures Valid() && this.space == space && heapNext == HEAP_BASE
    {
      InitInv(space.Contents(), space.root);
      this.space, heapNext := space, HEAP_BASE;
    }

    /** kmalloc: 0 for nothing asked, the block's address, or halted. */
    method Allocate(size: nat) returns (b: Block)
      requires Valid() && size < TWO64 && heapNext < TWO64
      modifies `heapNext
      ensures Valid() && heapNext < TWO64
      ensures (heapNext, b) == Kmalloc(old(heapNext), size)
      ensures NextInv(old(heapNext)) && size + old(heapNext) <= TWO64 - 16 ==> FreshBlock(old(heapNext), size, heapNext, b)
    {
      hide Inv, FreshBlock;
      if NextInv(heapNext) { KmallocFreshIff(heapNext, size); }
      if size == 0 { return Null; }
      var rounded := Round16(size);
      var addr := Round16(heapNext);
      heapNext := (addr + rounded) % TWO64;
      assert Inv(State()) by { SameFrames(old(State()), State()); }
      if heapNext > HEAP_END { return Exhausted; }
      b := Block(addr);
    }

    lemma SameFrames(h: Heap, h': Heap)
      requires Inv(h) && h'.mem == h.mem && h'.root == h.root
      ensures Inv(h')
    {
    }

    /** vmm_demand_page for a not-present fault. */
    method ServeFault(addr: nat) returns (r: Fault)
      requires Valid() && Translate(space.tables, space.root, addr) == NotMapped
      modifies space`tables, space.pmm`freePages, space.pmm.bitmap
      ensures Shape() && (State().mem, r) == DemandPage(old(State()).mem, space.root, addr)
      ensures !r.OutOfFrames? ==> Valid() && Total(State().mem, space.root) == old(Total(State().mem, space.root))
      ensures r.Served? ==> LinksMade(old(State()).mem, State().mem, space.root, PageOf(addr))
      ensures r.Served? && HeapWritable(old(State()).mem, space.root) ==>
        HeapWritable(State().mem, space.root) && WritableWay(State().mem, space.root, PageOf(addr))
    {
      hide LinksMade, HeapWritable, WritableWay, LinksOnly, LeavesStay, EntryOn, ReadWriteLink;
      hide Inv, MapPage, Translate, Total, MemInv, Owned, MapEffect, HeapPage, Missing, CountFree, Brought, HeapFrame;
      ghost var h := State();
      DemandPageKeeps(h, addr);
      ServedLinks(h, addr);
      if addr < HEAP_BASE || addr >= HEAP_END { return Refused; }
      var page := PageOf(addr);
      InvParts(h);
      var phys := space.AllocFrame();
      if phys == 0 { return OutOfFrames; }
      ghost var f := FirstFree(h.mem.used);
      TakeFrame(h.mem, h.root, f);
      var o := space.Map(page, phys, PRESENT_WRITABLE);
      if o.Halted? { return OutOfFrames; }
      r := Served;
    }

    lemma ServedLinks(h: Heap, addr: nat)
      requires Inv(h) && Translate(h.mem.tables, h.root, addr) == NotMapped
      ensures var (m', r) := DemandPage(h.mem, h.root, addr);
        && (r.Served? ==> LinksMade(h.mem, m', h.root, PageOf(addr)))
        && (r.Served? && HeapWritable(h.mem, h.root) ==> HeapWritable(m', h.root) && WritableWay(m', h.root, PageOf(addr)))
    {
      hide Inv, Translate, DemandPage, LinksMade, HeapWritable, WritableWay;
      if DemandPage(h.mem, h.root, addr).1.Served? {
        DemandPageLinks(h, addr);
        if HeapWritable(h.mem, h.root) { DemandPageWritable(h, addr); }
      }
    }

    lemma InvParts(h: Heap)
      requires Inv(h)
      ensures MemInv(h.mem, h.root) && (|h.mem.used| > 0 ==> h.mem.used[0])
    {
      hide Tree, Owned;
    }

    /** One round of kfree's loop, without the shootdown. */
    method ReleasePage(page: nat)
      requires space.Valid()
      modifies space`tables, space.pmm`freePages, space.pmm.bitmap
      ensures Shape() && State().mem == FreeOne(old(State()).mem, space.root, page)
    {
      hide MemInv, Translate, Unmap, OthersSame, SetRange;
      var phys := space.UnmapPage(page);
      if phys != 0 { space.pmm.FreePages(phys, 1); }
    }

    /** kfree of a range of the heap. */
    method Release(ptr: nat, size: nat)
      requires Valid() && (ptr == 0 || size == 0 || (HEAP_BASE <= ptr && ptr + size <= HEAP_END))
      modifies space`tables, space.pmm`freePages, space.pmm.bitmap
      ensures Valid() && State().mem == Kfree(old(State()).mem, space.root, ptr, size)
      ensures Total(State().mem, space.root) == old(Total(State().mem, space.root))
    {
      hide Inv, Translate, Total, FreeOne, Owned, MemInv;
      ghost var h := State();
      KfreeKeeps(h, ptr, size);
      if ptr == 0 || size == 0 { return; }
      ghost var i, n := KfreeRange(ptr, size);
      var page := PageOf(ptr);
      var end := PageOf((ptr + size + 0xFFF) % TWO64);
      while page < end
        invariant Valid() && i <= n && page == HeapPage(i)
        invariant FreeFrom(h.mem, h.root, PageOf(ptr), end) == FreeFrom(State().mem, h.root, page, end)
        decreases end - page
      {
        RoundKeeps(State(), i);
        ReleasePage(page);
        page, i := page + PAGE, i + 1;
      }
    }

    lemma RoundKeeps(h: Heap, k: nat)
      requires Inv(h) && k < HEAP_PAGES
      ensures MemInv(h.mem, h.root) && Inv(h.(mem := FreeOne(h.mem, h.root, HeapPage(k))))
    {
      hide MemInv, Owned, FreeOne;
      FreeOneDrops(h.mem, h.root, k);
      DroppedParts(h.mem, FreeOne(h.mem, h.root, HeapPage(k)), h.root, k);
      DroppedOwned(h.mem, FreeOne(h.mem, h.root, HeapPage(k)), h.root, k);
    }

    lemma DroppedParts(m: Mem, m': Mem, r: nat, k: nat)
      requires Dropped(m, m', r, k)
      ensures MemInv(m', r)
    {
      hide MemInv;
    }
  }
}
