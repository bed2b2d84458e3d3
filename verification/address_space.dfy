/**
 The page tables in use and the page allocator behind them, updated in place as
 arch/x86_64/paging.c does it.
 */
module AddressSpaces {
  import opened PageMap
  import opened Paging
  import Pmm

  /** Taking one page is taking the first free one. */
  lemma FirstFitIsFirstFree(used: seq<bool>, s: nat)
    requires FirstFit(used, 1, s)
    ensures s == FirstFree(used) && s < |used| && SetRange(used, s, 1, true) == used[s := true]
  {
    assert Run(used, s, 1);
    assert !used[s];
    if FirstFree(used) < s { assert Run(used, FirstFree(used), 1); }
  }

  class AddressSpace {
    const root: nat
    const pmm: Pmm.Allocator
    var tables: map<nat, seq<nat>>

    ghost predicate Shape()
      reads this, pmm, pmm.bitmap
    {
      pmm.Valid()
    }

    ghost function Contents(): Mem
      requires Shape()
      reads this, pmm, pmm.bitmap
    {
      Mem(tables, pmm.Used())
    }

    ghost predicate Valid()
      reads this, pmm, pmm.bitmap
    {
      Shape() && MemInv(Contents(), root)
    }

    /** The tables the boot loader left, with the page allocator that knows about them. */
    constructor (root: nat, tables: map<nat, seq<nat>>, pmm: Pmm.Allocator)
      requires pmm.Valid() && MemInv(Mem(tables, pmm.Used()), root)
      ensures Valid() && this.root == root && this.pmm == pmm && Contents() == Mem(tables, pmm.Used())
    {
      this.root, this.tables, this.pmm := root, tables, pmm;
    }

    /** pmm_alloc_pages(1), as far as page 0 is not free. */
    method AllocFrame() returns (addr: nat)
      requires Shape() && (|pmm.Used()| > 0 ==> pmm.Used()[0])
      modifies pmm`freePages, pmm.bitmap
      ensures Shape()
      ensures var used := old(pmm.Used()); var f := FirstFree(used);
        && addr == (if f == |used| then 0 else f * PAGE) && (f == 0 ==> |used| == 0)
        && pmm.Used() == if f == |used| then used else used[f := true]
    {
      ghost var used := pmm.Used();
      addr := pmm.AllocPages(1);
      FirstFitOfOne(used);
      if FirstFree(used) < |used| {
        assert Run(used, FirstFree(used), 1);
        FirstFitIsFirstFree(used, addr / PAGE);
      }
    }

    /** paging_alloc_table; Nowhere stands for the PANIC. */
    method NewTable() returns (r: Place)
      requires Shape() && Backed(Contents())
      modifies `tables, pmm`freePages, pmm.bitmap
      ensures Shape() && (Contents(), r) == AllocTable(old(Contents()))
    {
      var addr := AllocFrame();
      if addr == 0 { return Nowhere; }
      var zeroed: seq<nat> := Zeros();
      tables := tables[addr := zeroed];
      r := At(addr);
    }

    /** "Ensure the next table exists": entry i of table t, made to lead to one. */
    method Ensure(t: nat, i: nat) returns (ok: bool)
      requires Shape() && Backed(Contents()) && t in tables && i < |tables[t]| && |tables[t]| == ENTRIES
      modifies `tables, pmm`freePages, pmm.bitmap
      ensures Shape() && (Contents(), ok) == EnsureTable(old(Contents()), t, i)
    {
      hide Present, PageOf, CountFree, FramesBacked;
      if Present(tables[t][i]) { return true; }
      ghost var before := Contents();
      AllocTableFresh(before);
      var page := NewTable();
      if page.Nowhere? { return false; }
      var row: seq<nat> := tables[t][i := Words.Or(page.addr, PRESENT_WRITABLE)];
      tables := tables[t := row];
      ok := true;
    }

    /** One level of paging_map: refuse a large page (below the root), or go on to the next table. */
    method Descend(t: nat, n: nat, v: nat, ghost phys: nat, ghost flags: nat) returns (o: Outcome, next: nat)
      requires Valid() && n < 3 && TableAt(tables, root, Path(v, n)) == At(t)
      modifies `tables, pmm`freePages, pmm.bitmap
      ensures Shape()
      ensures o.Mapped? ==> Valid() && TableAt(tables, root, Path(v, n + 1)) == At(next)
      ensures o.Mapped? ==> MapFrom(Contents(), next, n + 1, v, phys, flags) == MapFrom(old(Contents()), t, n, v, phys, flags)
      ensures !o.Mapped? ==> (Contents(), o) == MapFrom(old(Contents()), t, n, v, phys, flags)
    {
      hide MemInv, TableAt, Index, Present, Huge, EnsureTable, MadeTable;
      ghost var m := Contents();
      TableThere(m, root, v, n);
      var i := Index(v, n);
      if n > 0 && Present(tables[t][i]) && Huge(tables[t][i]) { return HugePage, 0; }
      EnsureTableKeeps(m, root, v, n);
      InvBacked(m, root);
      var ok := Ensure(t, i);
      if !ok { return Halted, 0; }
      if !Present(m.tables[t][i]) { MadeTableFacts(m, Contents(), root, v, n); }
      TableThere(Contents(), root, v, n);
      next := PageOf(tables[t][i]);
      o := Mapped;
    }

    lemma InvBacked(m: Mem, r: nat)
      requires MemInv(m, r)
      ensures Backed(m)
    {
    }

    /** The last level of paging_map: write the entry. */
    method SetLeafEntry(t: nat, v: nat, phys: nat, flags: nat)
      requires Valid() && TableAt(tables, root, Path(v, 3)) == At(t)
      modifies `tables
      ensures Shape() && (Contents(), Mapped) == MapFrom(old(Contents()), t, 3, v, phys, flags)
    {
      hide MemInv, TableAt, Index, MapFrom;
      TableThere(Contents(), root, v, 3);
      SetLast(Contents(), t, v, phys, flags);
      var row: seq<nat> := tables[t][Index(v, 3) := Words.Or(PageOf(phys), flags)];
      tables := tables[t := row];
    }

    /** paging_map, level by level. */
    method MapLevels(v: nat, phys: nat, flags: nat) returns (o: Outcome)
      requires Valid()
      modifies `tables, pmm`freePages, pmm.bitmap
      ensures Shape() && (Contents(), o) == MapPage(old(Contents()), root, v, phys, flags)
    {
      hide MemInv, TableAt, MapFrom, Path, Pmm.UsedMap, CountFree, Pmm.Words64;
      RootTable(tables, root, v);
      var pdp, pd, pt;
      o, pdp := Descend(root, 0, v, phys, flags);
      if o != Mapped { return; }
      o, pd := Descend(pdp, 1, v, phys, flags);
      if o != Mapped { return; }
      o, pt := Descend(pd, 2, v, phys, flags);
      if o != Mapped { return; }
      SetLeafEntry(pt, v, phys, flags);
    }

    /** paging_map with what it promises (MapPageCorrect). */
    method Map(v: nat, phys: nat, flags: nat) returns (o: Outcome)
      requires Valid() && flags < PAGE
      modifies `tables, pmm`freePages, pmm.bitmap
      ensures Shape() && (Contents(), o) == MapPage(old(Contents()), root, v, phys, flags)
      ensures !o.Halted? ==> Valid()
      ensures MapEffect(old(Contents()), Contents(), o, root, v, 0, PageOf(phys) + flags)
      ensures o.Mapped? ==> LinksOnly(old(tables), tables, root) && LeavesStay(old(tables), tables, root, v)
      ensures o.Mapped? ==> forall n: nat :: n < 3 && Present(EntryOn(old(tables), root, v, n)) ==>
        EntryOn(tables, root, v, n) == EntryOn(old(tables), root, v, n)
      ensures o.Mapped? ==> forall n: nat :: n < 3 && !Present(EntryOn(old(tables), root, v, n)) ==> ReadWriteLink(EntryOn(tables, root, v, n))
    {
      hide MemInv, MapPage, MapEffect, PageOf, LinksOnly, LeavesStay, EntryOn, ReadWriteLink;
      ghost var m := Contents();
      MapPageCorrect(m, root, v, phys, flags);
      o := MapLevels(v, phys, flags);
      MapKeeps(m, Contents(), o, root, v, PageOf(phys) + flags);
      if o.Mapped? { MapPageLinks(m, root, v, phys, flags); }
    }

    lemma SetLast(m: Mem, t: nat, v: nat, phys: nat, flags: nat)
      requires t in m.tables && |m.tables[t]| == ENTRIES
      ensures MapFrom(m, t, 3, v, phys, flags) == (SetEntry(m, t, Index(v, 3), Words.Or(PageOf(phys), flags)), Mapped)
    {
    }

    lemma MapKeeps(m: Mem, m': Mem, o: Outcome, r: nat, v: nat, e: nat)
      requires MemInv(m, r) && MapEffect(m, m', o, r, v, 0, e)
      ensures !o.Halted? ==> MemInv(m', r)
    {
      hide MemInv, Translate, Missing, CountFree, Grown, OthersSame;
    }

    /** The entry on v's way down at depth n is in memory, and so is the table it leads to. */
    lemma NextTable(m: Mem, r: nat, t: nat, n: nat, v: nat)
      requires MemInv(m, r) && n <= 3 && TableAt(m.tables, r, Path(v, n)) == At(t)
      ensures t in m.tables && |m.tables[t]| == ENTRIES && EntryAt(m.tables, t, Index(v, n)) == m.tables[t][Index(v, n)]
      ensures n < 3 && Present(m.tables[t][Index(v, n)]) && (n == 0 || !Huge(m.tables[t][Index(v, n)])) ==>
        TableAt(m.tables, r, Path(v, n + 1)) == At(PageOf(m.tables[t][Index(v, n)]))
    {
      hide Tree, TableAt, Index, Present, Huge, PageOf, Path;
      TableThere(m, r, v, n);
      if n < 3 { StepDown(m.tables, r, v, n); }
    }

    /** paging_walk: the depth reached and the entries seen on the way. */
    method WalkTables(v: nat) returns (depth: nat, pml4e: nat, pdpe: nat, pde: nat, pte: nat)
      requires Valid()
      ensures Walked(depth, pml4e, pdpe, pde, pte) == Walk(tables, root, v)
      ensures depth == 4 <==> TableAt(tables, root, Path(v, 3)).At?
    {
      hide MemInv, TableAt, Index, Present, Huge, PageOf, EntryOn;
      ghost var m := Contents();
      WalkEnds(m, root, v);
      RootTable(tables, root, v);
      NextTable(m, root, root, 0, v);
      pml4e, pdpe, pde, pte := tables[root][Index(v, 0)], 0, 0, 0;
      if !Present(pml4e) { return 1, pml4e, pdpe, pde, pte; }
      var pdp := PageOf(pml4e);
      NextTable(m, root, pdp, 1, v);
      pdpe := tables[pdp][Index(v, 1)];
      if !Present(pdpe) || Huge(pdpe) { return 2, pml4e, pdpe, pde, pte; }
      var pd := PageOf(pdpe);
      NextTable(m, root, pd, 2, v);
      pde := tables[pd][Index(v, 2)];
      if !Present(pde) || Huge(pde) { return 3, pml4e, pdpe, pde, pte; }
      var pt := PageOf(pde);
      NextTable(m, root, pt, 3, v);
      pte := tables[pt][Index(v, 3)];
      depth := 4;
    }

    lemma WalkEnds(m: Mem, r: nat, v: nat)
      requires MemInv(m, r)
      ensures Walk(m.tables, r, v).depth == 4 <==> TableAt(m.tables, r, Path(v, 3)).At?
    {
      hide Tree, TableAt, Index, Walk, EntryOn, Translate;
      WalkReadsPath(m.tables, r, v);
    }

    /** paging_unmap. */
    method UnmapPage(v: nat) returns (phys: nat)
      requires Valid()
      modifies `tables
      ensures Valid() && (Contents(), phys) == Unmap(old(Contents()), root, v)
      ensures OthersSame(old(Contents()), Contents(), root, v)
      ensures Translate(old(tables), root, v).Page? ==> phys == PageOf(Translate(old(tables), root, v).pte)
      ensures Translate(old(tables), root, v).Page? ==> Translate(tables, root, v) == NotMapped
      ensures !Translate(old(tables), root, v).Page? ==> phys == 0 && tables == old(tables)
    {
      hide MemInv, TableAt, Index, Present, Huge, PageOf, EntryOn, Translate, OthersSame;
      ghost var m := Contents();
      UnmapCorrect(m, root, v);
      RootTable(tables, root, v);
      NextTable(m, root, root, 0, v);
      var pml4e := tables[root][Index(v, 0)];
      if !Present(pml4e) { return 0; }
      var pdp := PageOf(pml4e);
      NextTable(m, root, pdp, 1, v);
      var pdpe := tables[pdp][Index(v, 1)];
      if !Present(pdpe) { return 0; }
      if Huge(pdpe) { return 0; }
      var pd := PageOf(pdpe);
      NextTable(m, root, pd, 2, v);
      var pde := tables[pd][Index(v, 2)];
      if !Present(pde) { return 0; }
      if Huge(pde) { return 0; }
      var pt := PageOf(pde);
      NextTable(m, root, pt, 3, v);
      var pte := tables[pt][Index(v, 3)];
      if !Present(pte) { return 0; }
      phys := PageOf(pte);
      var row: seq<nat> := tables[pt][Index(v, 3) := 0];
      tables := tables[pt := row];
    }
  }
}
