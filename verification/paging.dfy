/**
 Four-level page tables (arch/x86_64/paging.c; Intel SDM Volume 3A, section 4.5): walking, mapping
 and unmapping 4 KB pages, with table frames taken from the page allocator.
 */
module Paging {
  import opened Words
  import opened PageMap

  const PAGE: nat := 4096
  const ENTRIES: nat := 512
  const PRESENT_WRITABLE: nat := 3

  /** Physical memory seen as page tables, keyed by address, and the allocator's page map. */
  datatype Mem = Mem(tables: map<nat, seq<nat>>, used: seq<bool>)

  predicate Present(e: nat) { Bit(e, 0) }
  predicate Huge(e: nat) { Bit(e, 7) }

  /** `x & ~0xFFF`. */
  function PageOf(x: nat): nat { x / PAGE * PAGE }

  /** The table index of a virtual address at level 0 (PML4) to 3 (PT). */
  function Index(v: nat, level: nat): (i: nat)
    requires level < 4
    ensures i < ENTRIES
  {
    if level == 0 then v / 0x80_0000_0000 % ENTRIES
    else if level == 1 then v / 0x4000_0000 % ENTRIES
    else if level == 2 then v / 0x20_0000 % ENTRIES
    else v / 0x1000 % ENTRIES
  }

  predicate SamePage(v: nat, w: nat) {
    forall l :: 0 <= l < 4 ==> Index(v, l) == Index(w, l)
  }

  /** The indices from the root down to the table at depth n. */
  function Path(v: nat, n: nat): seq<nat>
    requires n <= 4
  {
    if n == 0 then [] else Path(v, n - 1) + [Index(v, n - 1)]
  }

  /** The four indices are the digits of the address, base 512, above the 12 bits within the page. */
  lemma IndexDigits(v: nat)
    ensures v % 0x1_0000_0000_0000 ==
      Index(v, 0) * 0x80_0000_0000 + Index(v, 1) * 0x4000_0000 + Index(v, 2) * 0x20_0000 + Index(v, 3) * 0x1000 + v % 0x1000
  {
    Digit(v, 0x1000);
    Digit(v, 0x20_0000);
    Digit(v, 0x4000_0000);
    Digit(v, 0x80_0000_0000);
  }

  lemma Digit(v: nat, d: nat)
    requires d > 0
    ensures v % (d * 512) == v / d % 512 * d + v % d
  {
    var q, r := v / d, v % d;
    Spread(q / 512, q % 512, d);
    Bounded(q % 512, d, r);
    DivModUnique(v, q / 512, d * 512, q % 512 * d + r);
  }

  lemma Spread(a: nat, b: nat, d: nat)
    ensures (a * 512 + b) * d == a * (d * 512) + b * d
  {
  }

  lemma Bounded(b: nat, d: nat, r: nat)
    requires b < 512 && r < d
    ensures 0 <= b * d + r < d * 512
  {
    assert (511 - b) * d >= 0 && b * d >= 0;
  }

  // ---- the tree of tables -----------------------------------------------------------

  /** Entry e, found in a table at depth n - 1, leads to a table at depth n. */
  predicate Leads(e: nat, n: nat) {
    Present(e) && (n == 1 || !Huge(e))
  }

  /** The table reached from the root along a path of indices. */
  function TableAt(tables: map<nat, seq<nat>>, root: nat, path: seq<nat>): (t: Place)
    decreases |path|
  {
    if path == [] then At(root)
    else
      var n := |path|;
      match TableAt(tables, root, path[..n - 1])
      case Nowhere => Nowhere
      case At(t) =>
        if t in tables && path[n - 1] < |tables[t]| && Leads(tables[t][path[n - 1]], n)
        then At(PageOf(tables[t][path[n - 1]])) else Nowhere
  }

  datatype Place = Nowhere | At(addr: nat)

  ghost predicate GoodPath(path: seq<nat>) {
    |path| <= 3 && forall i :: 0 <= i < |path| ==> path[i] < ENTRIES
  }

  /** Every path leads to its own table, and all of them are in memory. */
  ghost predicate Tree(tables: map<nat, seq<nat>>, root: nat) {
    && (forall t :: t in tables ==> |tables[t]| == ENTRIES)
    && (forall p :: GoodPath(p) && TableAt(tables, root, p).At? ==> TableAt(tables, root, p).addr in tables)
    && (forall p, q :: GoodPath(p) && GoodPath(q) && TableAt(tables, root, p).At? && TableAt(tables, root, p) == TableAt(tables, root, q) ==> p == q)
  }

  /** Table frames are whole pages and the allocator does not think they are free; neither is page 0. */
  ghost predicate FramesBacked(tables: set<nat>, used: seq<bool>) {
    && (forall t :: t in tables ==> t % PAGE == 0 && (t / PAGE < |used| ==> used[t / PAGE]))
    && (|used| > 0 ==> used[0])
  }

  ghost predicate Backed(m: Mem) {
    FramesBacked(m.tables.Keys, m.used)
  }

  ghost predicate MemInv(m: Mem, root: nat) {
    Tree(m.tables, root) && Backed(m)
  }

  // ---- paging_walk ---------------------------------------------------------------------

  datatype Walked = Walked(depth: nat, pml4e: nat, pdpe: nat, pde: nat, pte: nat)

  function EntryAt(tables: map<nat, seq<nat>>, t: nat, i: nat): nat {
    if t in tables && i < |tables[t]| then tables[t][i] else 0
  }

  function Walk(tables: map<nat, seq<nat>>, root: nat, v: nat): Walked {
    var e0 := EntryAt(tables, root, Index(v, 0));
    if !Present(e0) then Walked(1, e0, 0, 0, 0)
    else
      var e1 := EntryAt(tables, PageOf(e0), Index(v, 1));
      if !Present(e1) || Huge(e1) then Walked(2, e0, e1, 0, 0)
      else
        var e2 := EntryAt(tables, PageOf(e1), Index(v, 2));
        if !Present(e2) || Huge(e2) then Walked(3, e0, e1, e2, 0)
        else Walked(4, e0, e1, e2, EntryAt(tables, PageOf(e2), Index(v, 3)))
  }

  datatype Mapping = NotMapped | Page(pte: nat) | Large(entry: nat)

  /** What the processor translates v to. */
  function Translate(tables: map<nat, seq<nat>>, root: nat, v: nat): Mapping {
    var w := Walk(tables, root, v);
    if w.depth == 4 && Present(w.pte) then Page(w.pte)
    else if w.depth == 3 && Present(w.pde) then Large(w.pde)
    else if w.depth == 2 && Present(w.pdpe) then Large(w.pdpe)
    else NotMapped
  }

  // ---- paging_map, paging_unmap --------------------------------------------------------

  function SetEntry(m: Mem, t: nat, i: nat, e: nat): Mem
    requires t in m.tables && i < |m.tables[t]|
  {
    var row: seq<nat> := m.tables[t][i := e];
    var tables: map<nat, seq<nat>> := m.tables[t := row];
    m.(tables := tables)
  }

  function Zeros(): seq<nat> {
    seq(ENTRIES, _ => 0)
  }

  /** paging_alloc_table: a zeroed frame, or a halt when there is none. */
  function AllocTable(m: Mem): (Mem, Place) {
    var f := FirstFree(m.used);
    if f == 0 || f == |m.used| then (m, Nowhere)
    else (Mem(m.tables[f * PAGE := Zeros()], m.used[f := true]), At(f * PAGE))
  }

  datatype Outcome = Mapped | HugePage | Halted

  /** Make sure entry i of table t points to a table. */
  function EnsureTable(m: Mem, t: nat, i: nat): (Mem, bool)
    requires t in m.tables && i < |m.tables[t]|
  {
    if Present(m.tables[t][i]) then (m, true)
    else
      match AllocTable(m)
      case (m1, Nowhere) => (m1, false)
      case (m1, At(page)) =>
        if t in m1.tables && i < |m1.tables[t]| then (SetEntry(m1, t, i, Or(page, PRESENT_WRITABLE)), true) else (m1, false)
  }

  /** paging_map below a table at depth n: descend, creating tables, and set the last entry. */
  function MapFrom(m: Mem, t: nat, n: nat, v: nat, phys: nat, flags: nat): (Mem, Outcome)
    requires n <= 3
    decreases 3 - n
  {
    var i := Index(v, n);
    if t !in m.tables || |m.tables[t]| != ENTRIES then (m, Halted)
    else if n == 3 then (SetEntry(m, t, i, Or(PageOf(phys), flags)), Mapped)
    else if n > 0 && Present(m.tables[t][i]) && Huge(m.tables[t][i]) then (m, HugePage)
    else
      var (m1, ok) := EnsureTable(m, t, i);
      if !ok then (m1, Halted) else MapFrom(m1, PageOf(EntryAt(m1.tables, t, i)), n + 1, v, phys, flags)
  }

  function MapPage(m: Mem, root: nat, v: nat, phys: nat, flags: nat): (Mem, Outcome) {
    MapFrom(m, root, 0, v, phys, flags)
  }

  /** paging_unmap: the address that was mapped, 0 when there was no 4 KB mapping. */
  function Unmap(m: Mem, root: nat, v: nat): (Mem, nat) {
    var w := Walk(m.tables, root, v);
    var t := PageOf(w.pde);
    if w.depth == 4 && Present(w.pte) && t in m.tables && |m.tables[t]| == ENTRIES
    then (SetEntry(m, t, Index(v, 3), 0), PageOf(w.pte)) else (m, 0)
  }

  // ---- entries -------------------------------------------------------------------------

  lemma EntryBits(page: nat, flags: nat)
    requires page % PAGE == 0 && flags < PAGE
    ensures Or(page, flags) == page + flags && PageOf(Or(page, flags)) == page
    ensures Present(Or(page, flags)) == Present(flags) && Huge(Or(page, flags)) == Huge(flags)
  {
    Pow2Words();
    OrIsSum(page, flags, 12);
    DivModUnique(page + flags, page / PAGE, PAGE, flags);
    BitOfOr(page, flags, 0);
    BitOfOr(page, flags, 7);
    AlignedBits(page / 4096);
  }

  lemma AlignedBits(q: nat)
    ensures !Bit(q * 4096, 0) && !Bit(q * 4096, 7)
  {
    ShiftedBit(q * 32, 7);
    Doubles(q);
  }

  lemma Doubles(q: nat)
    ensures q * 4096 / 2 == q * 2048
  {
  }

  lemma ShiftedBit(q: nat, k: nat)
    requires k == 7
    ensures !Bit(q * 128, k) == !Bit(q, 0)
  {
    assert q * 128 / 2 == q * 64 && q * 64 / 2 == q * 32 && q * 32 / 2 == q * 16 && q * 16 / 2 == q * 8;
    assert q * 8 / 2 == q * 4 && q * 4 / 2 == q * 2 && q * 2 / 2 == q;
    assert Bit(q * 128, 7) == Bit(q * 64, 6) && Bit(q * 64, 6) == Bit(q * 32, 5) && Bit(q * 32, 5) == Bit(q * 16, 4);
    assert Bit(q * 16, 4) == Bit(q * 8, 3) && Bit(q * 8, 3) == Bit(q * 4, 2) && Bit(q * 4, 2) == Bit(q * 2, 1) && Bit(q * 2, 1) == Bit(q, 0);
  }

  lemma LinkEntry(page: nat, n: nat)
    requires page % PAGE == 0
    ensures Leads(Or(page, PRESENT_WRITABLE), n) && PageOf(Or(page, PRESENT_WRITABLE)) == page && Present(Or(page, PRESENT_WRITABLE))
  {
    EntryBits(page, PRESENT_WRITABLE);
    assert Bit(3, 0) && !Bit(3, 7);
  }

  // ---- what one written entry changes -----------------------------------------------------

  /** T' is T except for entry i of table t, and possibly new tables. */
  ghost predicate AgreesBut(T: map<nat, seq<nat>>, T': map<nat, seq<nat>>, t: nat, i: nat) {
    forall u :: u in T ==> u in T' && |T'[u]| == |T[u]| && forall j :: 0 <= j < |T[u]| && (u != t || j != i) ==> T'[u][j] == T[u][j]
  }

  /** q runs through entry i of the table at p. */
  predicate Through(q: seq<nat>, p: seq<nat>, i: nat) {
    |q| > |p| && q[..|p|] == p && q[|p|] == i
  }

  lemma TreeMember(T: map<nat, seq<nat>>, root: nat, p: seq<nat>)
    requires Tree(T, root) && GoodPath(p) && TableAt(T, root, p).At?
    ensures TableAt(T, root, p).addr in T && |T[TableAt(T, root, p).addr]| == ENTRIES
  {
  }

  lemma TreeInjective(T: map<nat, seq<nat>>, root: nat, p: seq<nat>, q: seq<nat>)
    requires Tree(T, root) && GoodPath(p) && GoodPath(q) && TableAt(T, root, p).At? && TableAt(T, root, p) == TableAt(T, root, q)
    ensures p == q
  {
  }

  lemma ThroughPrefix(q: seq<nat>, p: seq<nat>, i: nat)
    requires q != []
    ensures Through(q[..|q| - 1], p, i) ==> Through(q, p, i)
  {
    if |q| - 1 > |p| { assert q[..|q| - 1][..|p|] == q[..|p|]; }
  }

  /** T' is T with a fresh zeroed table, linked as entry i of the table at p. */
  ghost predicate Linked(T: map<nat, seq<nat>>, T': map<nat, seq<nat>>, root: nat, p: seq<nat>, i: nat, page: nat) {
    && GoodPath(p) && |p| < 3 && i < ENTRIES && TableAt(T, root, p).At? && page !in T
    && var t := TableAt(T, root, p).addr;
       && t in T && |T[t]| == ENTRIES && !Present(T[t][i])
       && T'.Keys == T.Keys + {page} && T'[page] == Zeros() && AgreesBut(T, T', t, i)
       && Leads(T'[t][i], |p| + 1) && PageOf(T'[t][i]) == page
  }

  /** Paths that do not run through the written entry lead where they led before. */
  lemma {:induction false} FarPathsStay(T: map<nat, seq<nat>>, T': map<nat, seq<nat>>, root: nat, p: seq<nat>, i: nat, q: seq<nat>)
    requires Tree(T, root) && GoodPath(p) && GoodPath(q) && TableAt(T, root, p).At?
    requires AgreesBut(T, T', TableAt(T, root, p).addr, i) && !Through(q, p, i)
    ensures TableAt(T', root, q) == TableAt(T, root, q)
    decreases |q|
  {
    hide Tree, Leads;
    if q != [] {
      var q' := q[..|q| - 1];
      ThroughPrefix(q, p, i);
      FarPathsStay(T, T', root, p, i, q');
      if TableAt(T, root, q').At? {
        TreeMember(T, root, q');
        if TableAt(T, root, q') == TableAt(T, root, p) { TreeInjective(T, root, q', p); }
      }
    }
  }

  /** Behind a fresh link lies one empty table. */
  lemma {:induction false} BehindLink(T': map<nat, seq<nat>>, root: nat, p: seq<nat>, i: nat, page: nat, q: seq<nat>)
    requires |p| < 3 && i < ENTRIES && GoodPath(q) && Through(q, p, i)
    requires TableAt(T', root, p).At? && var t := TableAt(T', root, p).addr;
      t in T' && |T'[t]| == ENTRIES && Leads(T'[t][i], |p| + 1) && PageOf(T'[t][i]) == page
    requires page in T' && T'[page] == Zeros()
    ensures TableAt(T', root, q) == if |q| == |p| + 1 then At(page) else Nowhere
    decreases |q|
  {
    var n := |q|;
    if n == |p| + 1 {
      assert q[..n - 1] == p;
    } else {
      var q' := q[..n - 1];
      assert q'[..|p|] == q[..|p|];
      BehindLink(T', root, p, i, page, q');
      assert !Present(0);
    }
  }

  /** Before the link was made, nothing lay behind it. */
  lemma {:induction false} NothingBehind(T: map<nat, seq<nat>>, root: nat, p: seq<nat>, i: nat, q: seq<nat>)
    requires GoodPath(q) && Through(q, p, i) && TableAt(T, root, p).At?
    requires var t := TableAt(T, root, p).addr; t in T && i < |T[t]| && !Leads(T[t][i], |p| + 1)
    ensures TableAt(T, root, q) == Nowhere
    decreases |q|
  {
    var n := |q|;
    if n == |p| + 1 {
      assert q[..n - 1] == p;
    } else {
      assert q[..n - 1][..|p|] == q[..|p|];
      NothingBehind(T, root, p, i, q[..n - 1]);
    }
  }

  /** Linking a fresh zeroed table keeps the tree. */
  lemma LinkKeepsTree(T: map<nat, seq<nat>>, T': map<nat, seq<nat>>, root: nat, p: seq<nat>, i: nat, page: nat)
    requires Tree(T, root) && Linked(T, T', root, p, i, page)
    ensures Tree(T', root) && TableAt(T', root, p + [i]) == At(page) && TableAt(T', root, p) == TableAt(T, root, p)
  {
    hide Tree, Leads, TableAt;
    var t := TableAt(T, root, p).addr;
    TreeRows(T, root);
    FarPathsStay(T, T', root, p, i, p);
    assert Through(p + [i], p, i);
    BehindLink(T', root, p, i, page, p + [i]);
    forall q | GoodPath(q) && TableAt(T', root, q).At? ensures TableAt(T', root, q).addr in T' {
      WhereNow(T, T', root, p, i, page, q);
    }
    forall q, r | GoodPath(q) && GoodPath(r) && TableAt(T', root, q).At? && TableAt(T', root, q) == TableAt(T', root, r) ensures q == r {
      WhereNow(T, T', root, p, i, page, q);
      WhereNow(T, T', root, p, i, page, r);
      if TableAt(T', root, q) == TableAt(T, root, q) && TableAt(T', root, r) == TableAt(T, root, r) { TreeInjective(T, root, q, r); }
    }
    TreeFromParts(T', root, T, t, page);
  }

  lemma TreeRows(T: map<nat, seq<nat>>, root: nat)
    requires Tree(T, root)
    ensures forall t :: t in T ==> |T[t]| == ENTRIES
  {
  }

  /** After linking, a path leads where it led before, or is the new link itself. */
  lemma WhereNow(T: map<nat, seq<nat>>, T': map<nat, seq<nat>>, root: nat, p: seq<nat>, i: nat, page: nat, q: seq<nat>)
    requires Tree(T, root) && GoodPath(q) && Linked(T, T', root, p, i, page)
    ensures TableAt(T', root, q).At? ==>
      || (q == p + [i] && TableAt(T', root, q) == At(page))
      || (TableAt(T', root, q) == TableAt(T, root, q) && TableAt(T, root, q).addr in T)
  {
    hide Tree, TableAt, Leads;
    FarPathsStay(T, T', root, p, i, p);
    if Through(q, p, i) {
      BehindLink(T', root, p, i, page, q);
      if |q| == |p| + 1 { assert q == p + [i]; }
    } else {
      FarPathsStay(T, T', root, p, i, q);
      if TableAt(T, root, q).At? { TreeMember(T, root, q); }
    }
  }

  lemma TreeFromParts(T': map<nat, seq<nat>>, root: nat, T: map<nat, seq<nat>>, t: nat, page: nat)
    requires Tree(T, root) && t in T && T'.Keys == T.Keys + {page}
    requires forall u :: u in T' ==> |T'[u]| == ENTRIES
    requires forall p :: GoodPath(p) && TableAt(T', root, p).At? ==> TableAt(T', root, p).addr in T'
    requires forall p, q :: GoodPath(p) && GoodPath(q) && TableAt(T', root, p).At? && TableAt(T', root, p) == TableAt(T', root, q) ==> p == q
    ensures Tree(T', root)
  {
  }

  /** Writing a last-level entry moves no table. */
  lemma LeafKeepsTree(T: map<nat, seq<nat>>, T': map<nat, seq<nat>>, root: nat, p: seq<nat>, i: nat)
    requires Tree(T, root) && GoodPath(p) && |p| == 3 && TableAt(T, root, p).At?
    requires AgreesBut(T, T', TableAt(T, root, p).addr, i) && T'.Keys == T.Keys
    ensures Tree(T', root) && forall q :: GoodPath(q) ==> TableAt(T', root, q) == TableAt(T, root, q)
  {
    hide TableAt;
    forall q | GoodPath(q) ensures TableAt(T', root, q) == TableAt(T, root, q) { FarPathsStay(T, T', root, p, i, q); }
  }

  // ---- translations ----------------------------------------------------------------------

  /** The level-n entry on v's way down, 0 when there is no table at that depth. */
  function EntryOn(T: map<nat, seq<nat>>, root: nat, v: nat, n: nat): nat
    requires n < 4
  {
    match TableAt(T, root, Path(v, n))
    case Nowhere => 0
    case At(t) => EntryAt(T, t, Index(v, n))
  }

  /** What a walk that met these entries found. */
  function MappingOf(e0: nat, e1: nat, e2: nat, e3: nat): Mapping {
    if !Present(e0) then NotMapped
    else if !Present(e1) then NotMapped else if Huge(e1) then Large(e1)
    else if !Present(e2) then NotMapped else if Huge(e2) then Large(e2)
    else if Present(e3) then Page(e3) else NotMapped
  }

  lemma PathStep(v: nat, n: nat)
    requires n < 4
    ensures |Path(v, n)| == n && Path(v, n + 1) == Path(v, n) + [Index(v, n)] && Path(v, n + 1)[..n] == Path(v, n)
    ensures n <= 3 ==> GoodPath(Path(v, n))
  {
    if n > 0 { PathStep(v, n - 1); }
  }

  /** One step down the tree, as the walk takes it. */
  lemma StepDown(T: map<nat, seq<nat>>, root: nat, v: nat, n: nat)
    requires Tree(T, root) && n < 3
    ensures var e := EntryOn(T, root, v, n);
      TableAt(T, root, Path(v, n + 1)) == if TableAt(T, root, Path(v, n)).At? && Leads(e, n + 1) then At(PageOf(e)) else Nowhere
  {
    hide Tree, Leads, Index, PageOf, Path;
    PathStep(v, n);
    if TableAt(T, root, Path(v, n)).At? { TreeMember(T, root, Path(v, n)); }
  }

  lemma NoEntryAbsent()
    ensures !Present(0) && !Huge(0)
  {
    NoBits(0);
    NoBits(7);
  }

  /** The walk reads exactly the entries along the path. */
  lemma WalkReadsPath(T: map<nat, seq<nat>>, root: nat, v: nat)
    requires Tree(T, root)
    ensures var e0, e1, e2, e3 := EntryOn(T, root, v, 0), EntryOn(T, root, v, 1), EntryOn(T, root, v, 2), EntryOn(T, root, v, 3);
      && Translate(T, root, v) == MappingOf(e0, e1, e2, e3)
      && (Walk(T, root, v).depth == 4 <==> TableAt(T, root, Path(v, 3)).At?)
      && (Walk(T, root, v).depth == 4 ==> Walk(T, root, v).pte == e3 && PageOf(Walk(T, root, v).pde) == TableAt(T, root, Path(v, 3)).addr)
  {
    hide Tree, Present, Huge, PageOf, Index, TableAt;
    NoEntryAbsent();
    RootTable(T, root, v);
    StepDown(T, root, v, 0);
    StepDown(T, root, v, 1);
    StepDown(T, root, v, 2);
  }

  /** paging_walk reports the depth it reached, the entries it met on the way, and 0 for those below. */
  lemma WalkReports(T: map<nat, seq<nat>>, root: nat, v: nat)
    requires Tree(T, root)
    ensures var w := Walk(T, root, v);
      var e0, e1, e2, e3 := EntryOn(T, root, v, 0), EntryOn(T, root, v, 1), EntryOn(T, root, v, 2), EntryOn(T, root, v, 3);
      && 1 <= w.depth <= 4
      && (w.depth > 1 <==> Present(e0))
      && (w.depth > 2 <==> Present(e0) && Present(e1) && !Huge(e1))
      && (w.depth > 3 <==> Present(e0) && Present(e1) && !Huge(e1) && Present(e2) && !Huge(e2))
      && w.pml4e == e0 && w.pdpe == (if w.depth >= 2 then e1 else 0)
      && w.pde == (if w.depth >= 3 then e2 else 0) && w.pte == (if w.depth == 4 then e3 else 0)
  {
    hide Tree, Present, Huge, PageOf, Index, TableAt;
    RootTable(T, root, v);
    StepDown(T, root, v, 0);
    StepDown(T, root, v, 1);
    StepDown(T, root, v, 2);
  }

  lemma RootTable(T: map<nat, seq<nat>>, root: nat, v: nat)
    ensures TableAt(T, root, Path(v, 0)) == At(root)
  {
  }

  lemma SamePath(v: nat, w: nat, n: nat)
    requires n <= 4
    ensures Path(v, n) == Path(w, n) <==> forall l :: 0 <= l < n ==> Index(v, l) == Index(w, l)
  {
    hide Index;
    if n > 0 {
      SamePath(v, w, n - 1);
      PathStep(v, n - 1);
      PathStep(w, n - 1);
    }
  }

  /** Rewriting v's last-level entry changes that entry for v's page and nothing for other pages. */
  lemma LeafEntry(T: map<nat, seq<nat>>, T': map<nat, seq<nat>>, root: nat, v: nat, w: nat, n: nat)
    requires Tree(T, root) && TableAt(T, root, Path(v, 3)).At? && n < 4
    requires AgreesBut(T, T', TableAt(T, root, Path(v, 3)).addr, Index(v, 3)) && T'.Keys == T.Keys
    requires n < 3 || !SamePage(v, w)
    ensures EntryOn(T', root, w, n) == EntryOn(T, root, w, n)
  {
    hide Tree, TableAt, Index;
    PathStep(v, 3);
    PathStep(w, n);
    LeafKeepsTree(T, T', root, Path(v, 3), Index(v, 3));
    if TableAt(T, root, Path(w, n)).At? {
      TreeMember(T, root, Path(w, n));
      if TableAt(T, root, Path(w, n)) == TableAt(T, root, Path(v, 3)) {
        TreeInjective(T, root, Path(w, n), Path(v, 3));
        SamePath(v, w, 3);
      }
    }
  }

  lemma LeafWrite(T: map<nat, seq<nat>>, T': map<nat, seq<nat>>, root: nat, v: nat, w: nat)
    requires Tree(T, root) && TableAt(T, root, Path(v, 3)).At? && !SamePage(v, w)
    requires AgreesBut(T, T', TableAt(T, root, Path(v, 3)).addr, Index(v, 3)) && T'.Keys == T.Keys
    ensures Tree(T', root) && Translate(T', root, w) == Translate(T, root, w)
  {
    hide Tree, TableAt, Index, EntryOn, Translate, Walk, SamePage;
    PathStep(v, 3);
    LeafKeepsTree(T, T', root, Path(v, 3), Index(v, 3));
    LeafEntry(T, T', root, v, w, 0); LeafEntry(T, T', root, v, w, 1);
    LeafEntry(T, T', root, v, w, 2); LeafEntry(T, T', root, v, w, 3);
    WalkReadsPath(T, root, w);
    WalkReadsPath(T', root, w);
  }

  /** A fresh link changes, on any way down, at most an absent entry into one that leads to an empty table. */
  lemma LinkEntryOn(T: map<nat, seq<nat>>, T': map<nat, seq<nat>>, root: nat, v: nat, n: nat, page: nat, w: nat, k: nat)
    requires Tree(T, root) && n < 3 && Linked(T, T', root, Path(v, n), Index(v, n), page) && k < 4
    ensures EntryOn(T', root, w, k) == EntryOn(T, root, w, k)
      || (k == n && !Present(EntryOn(T, root, w, k)) && (k < 3 ==> EntryOn(T', root, w, k + 1) == 0))
  {
    hide Tree, TableAt, Index, Leads, Present;
    PathStep(v, n);
    PathStep(w, k);
    var p, i, q := Path(v, n), Index(v, n), Path(w, k);
    LinkKeepsTree(T, T', root, p, i, page);
    if Through(q, p, i) {
      NotLeading(T, root, p, i);
      NothingBehind(T, root, p, i, q);
      BehindLink(T', root, p, i, page, q);
    } else {
      FarPathsStay(T, T', root, p, i, q);
      if TableAt(T, root, q).At? {
        TreeMember(T, root, q);
        if TableAt(T, root, q) == TableAt(T, root, p) {
          TreeInjective(T, root, q, p);
          if k < 3 {
            PathStep(w, k + 1);
            if Index(w, k) == i {
              assert Through(Path(w, k + 1), p, i);
              BehindLink(T', root, p, i, page, Path(w, k + 1));
            }
          }
        }
      }
    }
  }

  lemma NotLeading(T: map<nat, seq<nat>>, root: nat, p: seq<nat>, i: nat)
    requires TableAt(T, root, p).At? && TableAt(T, root, p).addr in T && i < |T[TableAt(T, root, p).addr]|
    requires !Present(T[TableAt(T, root, p).addr][i])
    ensures !Leads(T[TableAt(T, root, p).addr][i], |p| + 1)
  {
  }

  /** Linking an empty table changes no translation at all. */
  lemma LinkWrite(T: map<nat, seq<nat>>, T': map<nat, seq<nat>>, root: nat, v: nat, n: nat, page: nat, w: nat)
    requires Tree(T, root) && n < 3 && Linked(T, T', root, Path(v, n), Index(v, n), page)
    ensures Tree(T', root) && Translate(T', root, w) == Translate(T, root, w)
  {
    hide Tree, TableAt, Index, EntryOn, Translate, Walk, Linked, Present, Huge;
    LinkKeepsTree(T, T', root, Path(v, n), Index(v, n), page);
    LinkEntryOn(T, T', root, v, n, page, w, 0); LinkEntryOn(T, T', root, v, n, page, w, 1);
    LinkEntryOn(T, T', root, v, n, page, w, 2); LinkEntryOn(T, T', root, v, n, page, w, 3);
    NoEntryAbsent();
    WalkReadsPath(T, root, w);
    WalkReadsPath(T', root, w);
    NewLinkIsSmall(T, T', root, v, n, page, w);
  }

  lemma NewLinkIsSmall(T: map<nat, seq<nat>>, T': map<nat, seq<nat>>, root: nat, v: nat, n: nat, page: nat, w: nat)
    requires Tree(T, root) && n < 3 && Linked(T, T', root, Path(v, n), Index(v, n), page)
    ensures EntryOn(T', root, w, n) != EntryOn(T, root, w, n) ==> n == 0 || !Huge(EntryOn(T', root, w, n))
  {
    hide Tree, TableAt, Index, Present, Huge;
    PathStep(v, n);
    PathStep(w, n);
    var p, i, q := Path(v, n), Index(v, n), Path(w, n);
    LinkKeepsTree(T, T', root, p, i, page);
    if !Through(q, p, i) {
      FarPathsStay(T, T', root, p, i, q);
      if TableAt(T, root, q).At? {
        TreeMember(T, root, q);
        if TableAt(T, root, q) == TableAt(T, root, p) { TreeInjective(T, root, q, p); }
      }
    }
  }

  // ---- paging_map and paging_unmap ------------------------------------------------------------

  /** Frames only move from free to page tables, one for one. */
  ghost predicate FramesGrown(tables: set<nat>, used: seq<bool>, tables': set<nat>, used': seq<bool>) {
    && |used'| == |used|
    && (forall f :: 0 <= f < |used| ==> (used'[f] <==> used[f] || (f * PAGE in tables' && f * PAGE !in tables)))
    && tables <= tables'
    && (forall t :: t in tables' && t !in tables ==> t % PAGE == 0 && t / PAGE < |used| && !used[t / PAGE])
    && CountFree(used') + |tables'| == CountFree(used) + |tables|
  }

  ghost predicate Grown(m: Mem, m': Mem) {
    FramesGrown(m.tables.Keys, m.used, m'.tables.Keys, m'.used)
  }

  lemma GrownTrans(a: Mem, b: Mem, c: Mem)
    requires Grown(a, b) && Grown(b, c)
    ensures Grown(a, c)
  {
    forall t | t in c.tables && t !in a.tables ensures t % PAGE == 0 && t / PAGE < |a.used| && !a.used[t / PAGE] {
      if t in b.tables { } else { assert !b.used[t / PAGE]; }
    }
    forall f | 0 <= f < |a.used| ensures c.used[f] <==> a.used[f] || (f * PAGE in c.tables && f * PAGE !in a.tables) {
      FrameNumber(f);
    }
  }

  lemma FrameNumber(f: nat)
    ensures f * PAGE / PAGE == f && f * PAGE % PAGE == 0
  {
  }

  /** A fresh table frame was free, is not a table yet, and is marked used. */
  lemma AllocTableFresh(m: Mem)
    requires Backed(m)
    ensures var (m1, r) := AllocTable(m);
      && (r.Nowhere? <==> forall i :: 0 <= i < |m.used| ==> m.used[i])
      && (r.Nowhere? ==> m1 == m)
      && (r.At? ==> r.addr == FirstFree(m.used) * PAGE)
      && (r.At? ==> r.addr % PAGE == 0 && r.addr !in m.tables && m1.tables == m.tables[r.addr := Zeros()] && Grown(m, m1) && Backed(m1))
  {
    var f := FirstFree(m.used);
    if f != 0 && f != |m.used| {
      FrameNumber(f);
      CountSet(m.used, f, true);
      var m1 := AllocTable(m).0;
      assert m1.tables.Keys == m.tables.Keys + {f * PAGE};
      forall g | 0 <= g < |m.used| ensures m1.used[g] <==> m.used[g] || (g * PAGE in m1.tables && g * PAGE !in m.tables) {
        FrameNumber(g);
      }
    }
  }

  /** The table at depth n on v's way down is in memory. */
  ghost predicate TableThereAt(m: Mem, root: nat, v: nat, n: nat)
    requires n <= 3
  {
    && TableAt(m.tables, root, Path(v, n)).At?
    && TableAt(m.tables, root, Path(v, n)).addr in m.tables
    && |m.tables[TableAt(m.tables, root, Path(v, n)).addr]| == ENTRIES
  }

  /** How many tables are missing on v's way down, from depth n. */
  function Missing(T: map<nat, seq<nat>>, root: nat, v: nat, n: nat): nat
    requires n <= 3
    decreases 3 - n
  {
    if n == 3 then 0
    else if TableAt(T, root, Path(v, n + 1)).At? then Missing(T, root, v, n + 1)
    else 3 - n
  }

  /** m1 is m with a table made and linked on v's way down at depth n + 1. */
  ghost predicate MadeTable(m: Mem, m1: Mem, root: nat, v: nat, n: nat)
    requires n < 3
  {
    && MemInv(m1, root) && Grown(m, m1)
    && CountFree(m1.used) == CountFree(m.used) - 1
    && Missing(m1.tables, root, v, n + 1) == 2 - n
    && TableAt(m1.tables, root, Path(v, n + 1)) == At(PageOf(EntryOn(m1.tables, root, v, n)))
    && TableAt(m1.tables, root, Path(v, n)) == TableAt(m.tables, root, Path(v, n))
    && forall w: nat :: Translate(m1.tables, root, w) == Translate(m.tables, root, w)
  }

  lemma MakeTable(m: Mem, root: nat, v: nat, n: nat)
    requires MemInv(m, root) && n < 3 && TableThereAt(m, root, v, n) && !Present(EntryOn(m.tables, root, v, n))
    requires AllocTable(m).1.At?
    ensures MadeTable(m, EnsureTable(m, TableAt(m.tables, root, Path(v, n)).addr, Index(v, n)).0, root, v, n)
  {
    hide Tree, Backed, TableAt, Index, Translate, Walk, Present, Huge, Grown, Missing;
    var t, i := TableAt(m.tables, root, Path(v, n)).addr, Index(v, n);
    PathStep(v, n);
    AllocTableFresh(m);
    var (m0, r) := AllocTable(m);
    var m1 := SetEntry(m0, t, i, Or(r.addr, PRESENT_WRITABLE));
    LinkEntry(r.addr, n + 1);
    assert m1.tables.Keys == m.tables.Keys + {r.addr};
    assert m0.tables.Keys == m.tables.Keys + {r.addr};
    assert Linked(m.tables, m1.tables, root, Path(v, n), i, r.addr);
    LinkKeepsTree(m.tables, m1.tables, root, Path(v, n), i, r.addr);
    forall w: nat ensures Translate(m1.tables, root, w) == Translate(m.tables, root, w) {
      LinkWrite(m.tables, m1.tables, root, v, n, r.addr, w);
    }
    SameFramesGrown(m, m0, m1);
    GrownByOne(m, m1, r.addr);
    FreshHasNoBelow(m.tables, m1.tables, root, v, n, r.addr);
  }

  /** Below a fresh table there is none yet. */
  lemma FreshHasNoBelow(T: map<nat, seq<nat>>, T': map<nat, seq<nat>>, root: nat, v: nat, n: nat, page: nat)
    requires Tree(T, root) && n < 3 && Linked(T, T', root, Path(v, n), Index(v, n), page)
    ensures Missing(T', root, v, n + 1) == 2 - n
  {
    hide Tree, TableAt, Index, Leads;
    PathStep(v, n);
    PathStep(v, n + 1);
    LinkKeepsTree(T, T', root, Path(v, n), Index(v, n), page);
    if n < 2 {
      var q := Path(v, n + 2);
      PathStep(v, n + 2);
      assert q[..n] == q[..n + 1][..n];
      BehindLink(T', root, Path(v, n), Index(v, n), page, q);
    }
  }

  /** The table that v's walk needs at depth n + 1 exists afterwards, and no translation has changed. */
  lemma EnsureTableKeeps(m: Mem, root: nat, v: nat, n: nat)
    requires MemInv(m, root) && n < 3 && TableThereAt(m, root, v, n)
    requires n == 0 || !(Present(EntryOn(m.tables, root, v, n)) && Huge(EntryOn(m.tables, root, v, n)))
    ensures var t := TableAt(m.tables, root, Path(v, n)).addr; var (m1, ok) := EnsureTable(m, t, Index(v, n));
      && (!ok ==> !Present(EntryOn(m.tables, root, v, n)) && CountFree(m.used) == 0 && Missing(m.tables, root, v, n) == 3 - n)
      && (ok && Present(EntryOn(m.tables, root, v, n)) ==> m1 == m)
      && (ok && Present(EntryOn(m.tables, root, v, n)) ==> TableAt(m.tables, root, Path(v, n + 1)) == At(PageOf(EntryOn(m.tables, root, v, n))))
      && (ok && !Present(EntryOn(m.tables, root, v, n)) ==> MadeTable(m, m1, root, v, n) && Missing(m.tables, root, v, n) == 3 - n)
  {
    hide Tree, Backed, TableAt, Index, Translate, Walk, Present, Huge, MadeTable;
    StepDown(m.tables, root, v, n);
    if !Present(EntryOn(m.tables, root, v, n)) {
      AllocTableFresh(m);
      if AllocTable(m).1.At? { MakeTable(m, root, v, n); } else { CountBounds(m.used); }
    }
  }

  lemma SelfGrown(m: Mem)
    ensures Grown(m, m)
  {
  }

  /** Growth looks only at which frames are used and which are tables. */
  lemma SameFramesGrown(m: Mem, m0: Mem, m1: Mem)
    requires Grown(m, m0) && Backed(m0) && m1.tables.Keys == m0.tables.Keys && m1.used == m0.used
    ensures Grown(m, m1) && Backed(m1)
  {
    hide FramesGrown, FramesBacked;
  }

  lemma GrownByOne(m: Mem, m1: Mem, page: nat)
    requires Grown(m, m1) && m1.tables.Keys == m.tables.Keys + {page} && page !in m.tables
    ensures CountFree(m1.used) == CountFree(m.used) - 1
  {
    hide CountFree;
  }

  ghost predicate OthersSame(m: Mem, m': Mem, root: nat, v: nat) {
    forall w: nat :: !SamePage(v, w) ==> Translate(m'.tables, root, w) == Translate(m.tables, root, w)
  }

  /** The walk of v ends at depth 4 in entry e. */
  ghost predicate EndsIn(m: Mem, root: nat, v: nat, e: nat) {
    Walk(m.tables, root, v).depth == 4 && Walk(m.tables, root, v).pte == e
  }

  /** Writing v's last-level entry: v's walk ends in it, every other page keeps its translation. */
  lemma SetLeaf(m: Mem, root: nat, v: nat, e: nat)
    requires MemInv(m, root) && TableAt(m.tables, root, Path(v, 3)).At?
    ensures var t := TableAt(m.tables, root, Path(v, 3)).addr;
      && t in m.tables && |m.tables[t]| == ENTRIES
      && var m' := SetEntry(m, t, Index(v, 3), e);
         && MemInv(m', root) && Grown(m, m') && m'.used == m.used && m'.tables.Keys == m.tables.Keys
         && EndsIn(m', root, v, e) && OthersSame(m, m', root, v)
  {
    hide Tree, TableAt, Index, Translate, Walk, SamePage;
    PathStep(v, 3);
    TreeMember(m.tables, root, Path(v, 3));
    var t := TableAt(m.tables, root, Path(v, 3)).addr;
    var m' := SetEntry(m, t, Index(v, 3), e);
    assert m'.tables.Keys == m.tables.Keys;
    LeafKeepsTree(m.tables, m'.tables, root, Path(v, 3), Index(v, 3));
    WalkReadsPath(m'.tables, root, v);
    forall w: nat | !SamePage(v, w) ensures Translate(m'.tables, root, w) == Translate(m.tables, root, w) {
      LeafWrite(m.tables, m'.tables, root, v, w);
    }
    SelfGrown(m);
    SameFramesGrown(m, m, m');
  }

  /** What paging_map has done when it ends with outcome o. */
  ghost predicate MapEffect(m: Mem, m': Mem, o: Outcome, root: nat, v: nat, n: nat, e: nat)
    requires n <= 3
  {
    && (o.HugePage? <==> Translate(m.tables, root, v).Large?)
    && (o.HugePage? ==> m' == m)
    && (!o.HugePage? ==> (o.Halted? <==> CountFree(m.used) < Missing(m.tables, root, v, n)))
    && (o.Mapped? ==> MemInv(m', root) && Grown(m, m') && EndsIn(m', root, v, e) && OthersSame(m, m', root, v))
  }

  lemma {:induction false} MapFromCorrect(m: Mem, root: nat, n: nat, v: nat, phys: nat, flags: nat)
    requires MemInv(m, root) && n <= 3 && TableAt(m.tables, root, Path(v, n)).At?
    ensures var (m', o) := MapFrom(m, TableAt(m.tables, root, Path(v, n)).addr, n, v, phys, flags);
      MapEffect(m, m', o, root, v, n, Or(PageOf(phys), flags))
    decreases 3 - n
  {
    hide MemInv, TableAt, Index, Translate, SamePage, Grown, EndsIn, OthersSame, EnsureTable, SetEntry, Present, Huge;
    hide CountFree, MadeTable, MapEffect;
    var t, i, e := TableAt(m.tables, root, Path(v, n)).addr, Index(v, n), Or(PageOf(phys), flags);
    TableThere(m, root, v, n);
    if n == 3 {
      LeafEffect(m, root, v, e);
    } else if n > 0 && Present(m.tables[t][i]) && Huge(m.tables[t][i]) {
      HugeOnPath(m, root, v, n);
      HugeEffect(m, root, v, n, e);
    } else {
      EnsureTableKeeps(m, root, v, n);
      var (m1, ok) := EnsureTable(m, t, i);
      if !ok {
        AbsentBelow(m, root, v, n);
        HaltEffect(m, m1, root, v, n, e);
      } else {
        if Present(m.tables[t][i]) {
          MapFromCorrect(m, root, n + 1, v, phys, flags);
          var (m', o) := MapFrom(m, PageOf(m.tables[t][i]), n + 1, v, phys, flags);
          SameTableEffect(m, m', o, root, v, n, e);
        } else {
          AbsentBelow(m, root, v, n);
          MadeTableFacts(m, m1, root, v, n);
          MapFromCorrect(m1, root, n + 1, v, phys, flags);
          var (m', o) := MapFrom(m1, PageOf(EntryOn(m1.tables, root, v, n)), n + 1, v, phys, flags);
          NewTableEffect(m, m1, m', o, root, v, n, e);
        }
      }
    }
  }

  lemma LeafEffect(m: Mem, root: nat, v: nat, e: nat)
    requires MemInv(m, root) && TableThereAt(m, root, v, 3)
    ensures MapEffect(m, SetEntry(m, TableAt(m.tables, root, Path(v, 3)).addr, Index(v, 3), e), Mapped, root, v, 3, e)
  {
    hide MemInv, TableAt, Index, Translate, SamePage, Grown, EndsIn, OthersSame, SetEntry, CountFree;
    SetLeaf(m, root, v, e);
    FullWalkIsSmall(m, root, v);
  }

  lemma HugeEffect(m: Mem, root: nat, v: nat, n: nat, e: nat)
    requires n <= 3 && Translate(m.tables, root, v).Large?
    ensures MapEffect(m, m, HugePage, root, v, n, e)
  {
  }

  lemma HaltEffect(m: Mem, m1: Mem, root: nat, v: nat, n: nat, e: nat)
    requires n < 3 && !Translate(m.tables, root, v).Large? && CountFree(m.used) == 0 && Missing(m.tables, root, v, n) == 3 - n
    ensures MapEffect(m, m1, Halted, root, v, n, e)
  {
  }

  lemma SameTableEffect(m: Mem, m': Mem, o: Outcome, root: nat, v: nat, n: nat, e: nat)
    requires n < 3 && TableAt(m.tables, root, Path(v, n + 1)).At? && MapEffect(m, m', o, root, v, n + 1, e)
    ensures MapEffect(m, m', o, root, v, n, e)
  {
    hide MemInv, TableAt, Index, Translate, SamePage, Grown, EndsIn, OthersSame, CountFree;
  }

  lemma MadeTableFacts(m: Mem, m1: Mem, root: nat, v: nat, n: nat)
    requires n < 3 && MadeTable(m, m1, root, v, n) && TableThereAt(m, root, v, n)
    ensures MemInv(m1, root) && TableThereAt(m1, root, v, n)
    ensures TableAt(m1.tables, root, Path(v, n)) == TableAt(m.tables, root, Path(v, n))
    ensures TableAt(m1.tables, root, Path(v, n + 1)) == At(PageOf(EntryOn(m1.tables, root, v, n)))
    ensures EntryOn(m1.tables, root, v, n) == EntryAt(m1.tables, TableAt(m.tables, root, Path(v, n)).addr, Index(v, n))
  {
    hide MemInv, TableAt, Index, Translate, Grown, CountFree, Missing;
    TableThere(m1, root, v, n);
  }

  lemma NewTableEffect(m: Mem, m1: Mem, m': Mem, o: Outcome, root: nat, v: nat, n: nat, e: nat)
    requires n < 3 && MadeTable(m, m1, root, v, n) && MapEffect(m1, m', o, root, v, n + 1, e)
    requires !Translate(m.tables, root, v).Large? && Missing(m.tables, root, v, n) == 3 - n
    ensures MapEffect(m, m', o, root, v, n, e)
  {
    hide MemInv, TableAt, Index, Translate, SamePage, Grown, EndsIn, CountFree, Missing;
    assert Translate(m1.tables, root, v) == Translate(m.tables, root, v);
    if o.Mapped? { GrownTrans(m, m1, m'); }
  }

  lemma TableThere(m: Mem, root: nat, v: nat, n: nat)
    requires MemInv(m, root) && n <= 3 && TableAt(m.tables, root, Path(v, n)).At?
    ensures TableThereAt(m, root, v, n)
    ensures EntryOn(m.tables, root, v, n) == m.tables[TableAt(m.tables, root, Path(v, n)).addr][Index(v, n)]
  {
    PathStep(v, n);
    TreeMember(m.tables, root, Path(v, n));
  }

  lemma FullWalkIsSmall(m: Mem, root: nat, v: nat)
    requires MemInv(m, root) && TableAt(m.tables, root, Path(v, 3)).At?
    ensures !Translate(m.tables, root, v).Large?
  {
    hide TableAt, Index, Present, Huge, Tree;
    WalkReadsPath(m.tables, root, v);
  }

  lemma HugeOnPath(m: Mem, root: nat, v: nat, n: nat)
    requires MemInv(m, root) && 0 < n < 3 && TableAt(m.tables, root, Path(v, n)).At?
    requires Present(EntryOn(m.tables, root, v, n)) && Huge(EntryOn(m.tables, root, v, n))
    ensures Translate(m.tables, root, v).Large?
  {
    hide TableAt, Index, Present, Huge, Tree, Walk, Translate, EntryOn, Path;
    WalkReadsPath(m.tables, root, v);
    StepDown(m.tables, root, v, 0);
    StepDown(m.tables, root, v, 1);
  }

  /** An absent entry on the way means there is no large page either. */
  lemma AbsentBelow(m: Mem, root: nat, v: nat, n: nat)
    requires MemInv(m, root) && n < 3 && TableAt(m.tables, root, Path(v, n)).At? && !Present(EntryOn(m.tables, root, v, n))
    ensures !Translate(m.tables, root, v).Large?
  {
    hide TableAt, Index, Present, Huge, Tree, Walk, Translate, EntryOn, Path;
    WalkReadsPath(m.tables, root, v);
    StepDown(m.tables, root, v, 0);
    StepDown(m.tables, root, v, 1);
  }

  /**
   paging_map: with a large page in the way nothing changes at all; otherwise it halts exactly when
   fewer pages are free than tables are missing, and else the walk of v reaches depth 4 and finds
   the page address with the flags, and every other page keeps its translation although tables
   may have been added.
   */
  lemma MapPageCorrect(m: Mem, root: nat, v: nat, phys: nat, flags: nat)
    requires MemInv(m, root) && flags < PAGE
    ensures var (m', o) := MapPage(m, root, v, phys, flags); MapEffect(m, m', o, root, v, 0, PageOf(phys) + flags)
  {
    hide MemInv, TableAt, Index, MapFrom, MapEffect;
    RootTable(m.tables, root, v);
    MapFromCorrect(m, root, 0, v, phys, flags);
    FrameNumber(phys / PAGE);
    EntryBits(PageOf(phys), flags);
  }

  /** paging_unmap returns the mapped address, clears only v's entry, and does nothing where no 4 KB page is mapped. */
  lemma UnmapCorrect(m: Mem, root: nat, v: nat)
    requires MemInv(m, root)
    ensures var (m', phys) := Unmap(m, root, v);
      && MemInv(m', root) && m'.used == m.used && m'.tables.Keys == m.tables.Keys && OthersSame(m, m', root, v)
      && (Translate(m.tables, root, v).Page? ==> phys == PageOf(Translate(m.tables, root, v).pte) && Translate(m'.tables, root, v) == NotMapped)
      && (!Translate(m.tables, root, v).Page? ==> m' == m && phys == 0)
  {
    hide MemInv, TableAt, Index, SamePage, Grown;
    WalkOfTree(m, root, v);
    var w := Walk(m.tables, root, v);
    if w.depth == 4 && Present(w.pte) {
      SetLeaf(m, root, v, 0);
      NoEntryAbsent();
    }
  }

  lemma WalkOfTree(m: Mem, root: nat, v: nat)
    requires MemInv(m, root)
    ensures var w := Walk(m.tables, root, v);
      w.depth == 4 ==> TableThereAt(m, root, v, 3) && TableAt(m.tables, root, Path(v, 3)).addr == PageOf(w.pde)
  {
    hide Tree, TableAt, Index, Walk;
    WalkReadsPath(m.tables, root, v);
    if Walk(m.tables, root, v).depth == 4 { TableThere(m, root, v, 3); }
  }

  /** Unmapping undoes mapping: it returns the mapped page, and every page translates as before the map. */
  lemma MapThenUnmap(m: Mem, root: nat, v: nat, phys: nat, flags: nat)
    requires MemInv(m, root) && flags < PAGE && Present(flags) && MapPage(m, root, v, phys, flags).1.Mapped?
    requires Translate(m.tables, root, v) == NotMapped
    ensures var (m', p) := Unmap(MapPage(m, root, v, phys, flags).0, root, v);
      && p == PageOf(phys)
      && Translate(m'.tables, root, v) == NotMapped && OthersSame(m, m', root, v)
  {
    hide MemInv, TableAt, Index, SamePage, Grown, MapPage, Unmap, Walk, Translate, EndsIn;
    MapPageCorrect(m, root, v, phys, flags);
    var m1 := MapPage(m, root, v, phys, flags).0;
    EndsInPage(m1, root, v, phys, flags);
    UnmapCorrect(m1, root, v);
  }

  lemma EndsInPage(m: Mem, root: nat, v: nat, phys: nat, flags: nat)
    requires EndsIn(m, root, v, PageOf(phys) + flags) && flags < PAGE && Present(flags)
    ensures Translate(m.tables, root, v) == Page(PageOf(phys) + flags) && PageOf(PageOf(phys) + flags) == PageOf(phys)
  {
    FrameNumber(phys / PAGE);
    EntryBits(PageOf(phys), flags);
  }

  // ---- the links on the way down ---------------------------------------------------------------

  /** Of the flag bits, exactly Present (0) and Writable (1) are set. */
  ghost predicate ReadWriteLink(e: nat) {
    forall b: nat :: b < 12 ==> (Bit(e, b) <==> b < 2)
  }

  lemma {:induction false} AlignedHasNoBit(q: nat, k: nat, b: nat)
    requires b < k
    ensures !Bit(q * Pow2(k), b)
    decreases b
  {
    Doubled(q, Pow2(k - 1));
    assert q * Pow2(k) / 2 == q * Pow2(k - 1);
    if b > 0 { AlignedHasNoBit(q, k - 1, b - 1); }
  }

  lemma LinkBits(page: nat)
    requires page % PAGE == 0
    ensures ReadWriteLink(Or(page, PRESENT_WRITABLE)) && Present(Or(page, PRESENT_WRITABLE))
  {
    Pow2Words();
    forall b: nat | b < 12 ensures Bit(Or(page, PRESENT_WRITABLE), b) <==> b < 2 {
      BitOfOr(page, PRESENT_WRITABLE, b);
      AlignedHasNoBit(page / PAGE, 12, b);
      BitsOfThree(b);
    }
  }

  lemma BitsOfThree(b: nat)
    ensures Bit(3, b) <==> b < 2
  {
    if b >= 2 {
      NoBits(b - 2);
      assert Bit(3, b) == Bit(1, b - 1) == Bit(0, b - 2);
    }
  }

  /** On any way down, an entry above the last level is what it was, or was absent and is a link with exactly those two bits. */
  ghost predicate LinksOnly(T: map<nat, seq<nat>>, T': map<nat, seq<nat>>, root: nat) {
    forall w: nat, n: nat :: n < 3 ==>
      EntryOn(T', root, w, n) == EntryOn(T, root, w, n)
      || (!Present(EntryOn(T, root, w, n)) && Present(EntryOn(T', root, w, n)) && ReadWriteLink(EntryOn(T', root, w, n)))
  }

  /** Last-level entries of other pages stay. */
  ghost predicate LeavesStay(T: map<nat, seq<nat>>, T': map<nat, seq<nat>>, root: nat, v: nat) {
    forall w: nat :: !SamePage(v, w) ==> EntryOn(T', root, w, 3) == EntryOn(T, root, w, 3)
  }

  lemma LinksTrans(A: map<nat, seq<nat>>, B: map<nat, seq<nat>>, C: map<nat, seq<nat>>, root: nat, v: nat)
    requires LinksOnly(A, B, root) && LinksOnly(B, C, root) && LeavesStay(A, B, root, v) && LeavesStay(B, C, root, v)
    ensures LinksOnly(A, C, root) && LeavesStay(A, C, root, v)
  {
    hide EntryOn, ReadWriteLink, SamePage, Present;
  }

  lemma SameLinks(T: map<nat, seq<nat>>, root: nat, v: nat)
    ensures LinksOnly(T, T, root) && LeavesStay(T, T, root, v)
  {
  }

  /** The one entry that a fresh link can change on any way down is the link itself. */
  lemma ChangedIsLink(T: map<nat, seq<nat>>, T': map<nat, seq<nat>>, root: nat, v: nat, n: nat, page: nat, w: nat)
    requires Tree(T, root) && n < 3 && Linked(T, T', root, Path(v, n), Index(v, n), page)
    ensures EntryOn(T', root, w, n) != EntryOn(T, root, w, n) ==>
      EntryOn(T', root, w, n) == EntryAt(T', TableAt(T, root, Path(v, n)).addr, Index(v, n))
  {
    hide Tree, TableAt, Index, Present, Huge;
    PathStep(v, n);
    PathStep(w, n);
    var p, i, q := Path(v, n), Index(v, n), Path(w, n);
    LinkKeepsTree(T, T', root, p, i, page);
    if !Through(q, p, i) {
      FarPathsStay(T, T', root, p, i, q);
      if TableAt(T, root, q).At? {
        TreeMember(T, root, q);
        if TableAt(T, root, q) == TableAt(T, root, p) { TreeInjective(T, root, q, p); }
      }
    }
  }

  lemma LinkedLinks(T: map<nat, seq<nat>>, T': map<nat, seq<nat>>, root: nat, v: nat, n: nat, page: nat)
    requires Tree(T, root) && n < 3 && Linked(T, T', root, Path(v, n), Index(v, n), page)
    requires var e := EntryAt(T', TableAt(T, root, Path(v, n)).addr, Index(v, n)); ReadWriteLink(e) && Present(e)
    ensures LinksOnly(T, T', root) && LeavesStay(T, T', root, v)
  {
    hide Tree, TableAt, Index, EntryOn, Linked, Present, ReadWriteLink, SamePage;
    forall w: nat, k: nat | k < 3
      ensures EntryOn(T', root, w, k) == EntryOn(T, root, w, k)
        || (!Present(EntryOn(T, root, w, k)) && Present(EntryOn(T', root, w, k)) && ReadWriteLink(EntryOn(T', root, w, k)))
    {
      LinkEntryOn(T, T', root, v, n, page, w, k);
      ChangedIsLink(T, T', root, v, n, page, w);
    }
    forall w: nat | !SamePage(v, w) ensures EntryOn(T', root, w, 3) == EntryOn(T, root, w, 3) {
      LinkEntryOn(T, T', root, v, n, page, w, 3);
    }
  }

  /** Making one table on v's way down. */
  lemma EnsureTableLinks(m: Mem, root: nat, v: nat, n: nat)
    requires MemInv(m, root) && n < 3 && TableThereAt(m, root, v, n)
    ensures var (m1, ok) := EnsureTable(m, TableAt(m.tables, root, Path(v, n)).addr, Index(v, n));
      ok ==> LinksOnly(m.tables, m1.tables, root) && LeavesStay(m.tables, m1.tables, root, v)
             && Present(EntryAt(m1.tables, TableAt(m.tables, root, Path(v, n)).addr, Index(v, n)))
  {
    hide Tree, Backed, TableAt, Index, Present, Huge, Grown, LinksOnly, LeavesStay, ReadWriteLink, Leads;
    var t, i := TableAt(m.tables, root, Path(v, n)).addr, Index(v, n);
    PathStep(v, n);
    SameLinks(m.tables, root, v);
    AllocTableFresh(m);
    var (m0, r) := AllocTable(m);
    if !Present(m.tables[t][i]) && r.At? {
      var m1 := SetEntry(m0, t, i, Or(r.addr, PRESENT_WRITABLE));
      LinkEntry(r.addr, n + 1);
      LinkBits(r.addr);
      assert m1.tables.Keys == m.tables.Keys + {r.addr};
      assert Linked(m.tables, m1.tables, root, Path(v, n), i, r.addr);
      LinkedLinks(m.tables, m1.tables, root, v, n, r.addr);
    }
  }

  lemma LeafLinks(m: Mem, root: nat, v: nat, e: nat)
    requires MemInv(m, root) && TableThereAt(m, root, v, 3)
    ensures var m' := SetEntry(m, TableAt(m.tables, root, Path(v, 3)).addr, Index(v, 3), e);
      LinksOnly(m.tables, m'.tables, root) && LeavesStay(m.tables, m'.tables, root, v)
  {
    hide Tree, TableAt, Index, EntryOn, SamePage, Present, ReadWriteLink;
    var m' := SetEntry(m, TableAt(m.tables, root, Path(v, 3)).addr, Index(v, 3), e);
    forall w: nat, n: nat | n < 3 ensures EntryOn(m'.tables, root, w, n) == EntryOn(m.tables, root, w, n) {
      LeafEntry(m.tables, m'.tables, root, v, w, n);
    }
    forall w: nat | !SamePage(v, w) ensures EntryOn(m'.tables, root, w, 3) == EntryOn(m.tables, root, w, 3) {
      LeafEntry(m.tables, m'.tables, root, v, w, 3);
    }
  }

  lemma {:induction false} MapFromLinks(m: Mem, root: nat, n: nat, v: nat, phys: nat, flags: nat)
    requires MemInv(m, root) && n <= 3 && TableAt(m.tables, root, Path(v, n)).At?
    ensures var (m', o) := MapFrom(m, TableAt(m.tables, root, Path(v, n)).addr, n, v, phys, flags);
      o.Mapped? ==> LinksOnly(m.tables, m'.tables, root) && LeavesStay(m.tables, m'.tables, root, v)
    decreases 3 - n
  {
    hide MemInv, TableAt, Index, EnsureTable, SetEntry, Present, Huge, MadeTable, LinksOnly, LeavesStay;
    var t, i := TableAt(m.tables, root, Path(v, n)).addr, Index(v, n);
    TableThere(m, root, v, n);
    if n == 3 {
      LeafLinks(m, root, v, Or(PageOf(phys), flags));
    } else if !(n > 0 && Present(m.tables[t][i]) && Huge(m.tables[t][i])) {
      EnsureTableKeeps(m, root, v, n);
      EnsureTableLinks(m, root, v, n);
      var (m1, ok) := EnsureTable(m, t, i);
      if ok {
        if !Present(m.tables[t][i]) { MadeTableFacts(m, m1, root, v, n); }
        assert PageOf(EntryAt(m1.tables, t, i)) == TableAt(m1.tables, root, Path(v, n + 1)).addr by { EntryIsIt(m1.tables, t, i); }
        MapFromLinks(m1, root, n + 1, v, phys, flags);
        var (m', o) := MapFrom(m1, PageOf(EntryAt(m1.tables, t, i)), n + 1, v, phys, flags);
        if o.Mapped? { LinksTrans(m.tables, m1.tables, m'.tables, root, v); }
      }
    }
  }

  lemma EntryIsIt(T: map<nat, seq<nat>>, t: nat, i: nat)
    ensures t in T && i < |T[t]| ==> EntryAt(T, t, i) == T[t][i]
  {
  }

  /** A walk that ends at depth 4 met a link to a table at every level above. */
  lemma DeepWalkLinks(T: map<nat, seq<nat>>, root: nat, v: nat)
    requires Tree(T, root) && Walk(T, root, v).depth == 4
    ensures forall n: nat :: n < 3 ==> Leads(EntryOn(T, root, v, n), n + 1)
    ensures EntryOn(T, root, v, 3) == Walk(T, root, v).pte
  {
    hide Tree, Present, Huge, PageOf, Index, TableAt, Leads, Walk, EntryOn, Path;
    WalkReadsPath(T, root, v);
    RootTable(T, root, v);
    StepDown(T, root, v, 0);
    StepDown(T, root, v, 1);
    StepDown(T, root, v, 2);
  }

  /**
   When paging_map has mapped v: on v's way down, every entry that was present is unchanged, and every
   entry that was absent is present and writable with all its other flag bits clear; on other ways down
   nothing but these links has changed, and no last-level entry of another page.
   */
  lemma MapPageLinks(m: Mem, root: nat, v: nat, phys: nat, flags: nat)
    requires MemInv(m, root) && flags < PAGE && MapPage(m, root, v, phys, flags).1.Mapped?
    ensures var T, T' := m.tables, MapPage(m, root, v, phys, flags).0.tables;
      && LinksOnly(T, T', root) && LeavesStay(T, T', root, v)
      && (forall n: nat :: n < 3 && Present(EntryOn(T, root, v, n)) ==> EntryOn(T', root, v, n) == EntryOn(T, root, v, n))
      && (forall n: nat :: n < 3 && !Present(EntryOn(T, root, v, n)) ==> ReadWriteLink(EntryOn(T', root, v, n)))
      && (forall n: nat :: n < 3 ==> Leads(EntryOn(T', root, v, n), n + 1))
      && EntryOn(T', root, v, 3) == PageOf(phys) + flags
  {
    hide Tree, TableAt, Index, MapFrom, EntryOn, Present, Huge, PageOf, ReadWriteLink, Walk, OthersSame, Translate, Backed, Grown;
    RootTable(m.tables, root, v);
    MapFromLinks(m, root, 0, v, phys, flags);
    MapPageCorrect(m, root, v, phys, flags);
    DeepWalkLinks(MapPage(m, root, v, phys, flags).0.tables, root, v);
  }

  /** Unmapping changes no link, and no last-level entry but v's. */
  lemma UnmapLinks(m: Mem, root: nat, v: nat)
    requires MemInv(m, root)
    ensures var T, T' := m.tables, Unmap(m, root, v).0.tables;
      && LeavesStay(T, T', root, v) && (T' == T || EntryOn(T', root, v, 3) == 0)
      && forall w: nat, n: nat :: n < 3 ==> EntryOn(T', root, w, n) == EntryOn(T, root, w, n)
  {
    hide MemInv, TableAt, Index, SamePage, Grown, EntryOn, Present, ReadWriteLink, Walk;
    SameLinks(m.tables, root, v);
    WalkOfTree(m, root, v);
    var w := Walk(m.tables, root, v);
    if w.depth == 4 && Present(w.pte) {
      LeafSame(m, root, v, 0);
    }
  }

  lemma LeafSame(m: Mem, root: nat, v: nat, e: nat)
    requires MemInv(m, root) && TableThereAt(m, root, v, 3)
    ensures var m' := SetEntry(m, TableAt(m.tables, root, Path(v, 3)).addr, Index(v, 3), e);
      && (forall w: nat, n: nat :: n < 3 ==> EntryOn(m'.tables, root, w, n) == EntryOn(m.tables, root, w, n))
      && LeavesStay(m.tables, m'.tables, root, v) && EntryOn(m'.tables, root, v, 3) == e
  {
    hide Tree, TableAt, Index, EntryOn, SamePage;
    LeafLinks(m, root, v, e);
    SetLeaf(m, root, v, e);
    var m' := SetEntry(m, TableAt(m.tables, root, Path(v, 3)).addr, Index(v, 3), e);
    WalkReadsPath(m'.tables, root, v);
    forall w: nat, n: nat | n < 3 ensures EntryOn(m'.tables, root, w, n) == EntryOn(m.tables, root, w, n) {
      LeafEntry(m.tables, m'.tables, root, v, w, n);
    }
  }
}
