/**
 The arena: its split into regions (src/alloc.c), the twelve power-of-two bins (src/alloc_block.c)
 and the routing of allocations and frees between them.
 */
module Arena {
  import opened Words
  import opened Options
  import opened Slabs
  import FreeChain

  const TASK_SIZE: nat := 48
  const TRACE_SIZE: nat := 32
  const BINS: nat := 12
  const BLOCK_MIN: nat := 32
  const BLOCK_MAX: nat := 65536
  const MAX_ARENA: nat := 0x4_0000_0000  // 2^34: slab indices stay within 31 bits

  // ---- bin_index -----------------------------------------------------------------

  /** __builtin_ctz of a non-zero word. */
  function Ctz(x: nat): nat {
    if x == 0 || x % 2 == 1 then 0 else 1 + Ctz(x / 2)
  }

  lemma {:induction false} CtzOfPow2(k: nat)
    ensures Ctz(Pow2(k)) == k
  {
    if k > 0 { CtzOfPow2(k - 1); }
  }

  /** GMK_BLOCK_MIN_SIZE << i. */
  function BinSize(i: nat): nat {
    BLOCK_MIN * Pow2(i)
  }

  /** bin_index: -1 when no bin fits. */
  function BinIndex(size: nat): int
    requires size < TWO32
  {
    if size <= BLOCK_MIN then 0
    else if size > BLOCK_MAX then -1
    else
      var idx := Ctz(NextPow2(size)) - 5;
      if idx < 0 then 0 else if idx >= BINS then -1 else idx
  }

  lemma BinExponent(size: nat) returns (k: nat)
    requires BLOCK_MIN < size <= BLOCK_MAX
    ensures 5 < k <= 16 && NextPow2(size) == Pow2(k) && Pow2(k - 1) < size <= Pow2(k)
  {
    hide NextPow2;
    var h := NextPow2Value(size);
    Pow2Words();
    if h >= 16 { Pow2Monotone(16, h); }
    assert Pow2(5) == 32;
    if h < 5 { Pow2Monotone(h + 1, 5); }
    Pow2Monotone(h + 1, 31);
    k := h + 1;
  }

  lemma BinSizeIsPow2(i: nat)
    ensures BinSize(i) == Pow2(i + 5)
  {
    assert Pow2(5) == 32;
    Pow2Add(5, i);
  }

  /** The bin is the least one whose objects fit the request, for every request up to 64 KB. */
  lemma BinIndexIsLeastFit(size: nat)
    requires size < TWO32
    ensures BinIndex(size) == -1 <==> size > BLOCK_MAX
    ensures size <= BLOCK_MAX ==> 0 <= BinIndex(size) < BINS && size <= BinSize(BinIndex(size))
    ensures size <= BLOCK_MAX ==> forall j: nat :: j < BINS && size <= BinSize(j) ==> BinIndex(size) <= j
  {
    hide NextPow2, BinSize;
    if BLOCK_MIN < size <= BLOCK_MAX {
      var k := BinExponent(size);
      CtzOfPow2(k);
      BinSizeIsPow2(k - 5);
      forall j: nat | j < BINS && size <= BinSize(j) ensures k - 5 <= j {
        BinSizeIsPow2(j);
        if j + 5 < k { Pow2Monotone(j + 5, k - 1); }
      }
    } else {
      BinSizeIsPow2(0);
      assert Pow2(5) == 32;
    }
  }

  // ---- the split of the arena ---------------------------------------------------------

  function TaskBytes(size: nat): nat { size * 10 / 100 }
  function TraceBytes(size: nat): nat { size * 2 / 100 }
  function BumpBytes(size: nat): nat { size * 20 / 100 }
  function BlockBytes(size: nat): nat { size - TaskBytes(size) - TraceBytes(size) - BumpBytes(size) }

  /** Smaller bins get more memory: 16, 12, 8, 6, 4 and then 2 each. */
  function BinWeight(i: nat): nat {
    if i == 0 then 16 else if i == 1 then 12 else if i == 2 then 8 else if i == 3 then 6 else if i == 4 then 4 else 2
  }

  /** A bin's share of m bytes; the weights add up to 60. */
  function Share(m: nat, w: nat): nat {
    m * w / 60
  }

  lemma ShareRoundsDown(m: nat, w: nat)
    ensures 60 * Share(m, w) <= m * w
  {
    assert m * w >= 0;
  }

  /** The bytes the carving loop gives to bin i, and to the bins before it. */
  function BinBytes(m: nat, i: nat): int
    requires i < BINS
    decreases i, 1
  {
    if i < BINS - 1 then Share(m, BinWeight(i)) else m - BinsBefore(m, i)
  }

  function BinsBefore(m: nat, i: nat): int
    requires i <= BINS
    decreases i, 0
  {
    if i == 0 then 0 else BinsBefore(m, i - 1) + BinBytes(m, i - 1)
  }

  function WeightBefore(i: nat): nat
    requires i <= BINS
  {
    if i == 0 then 0 else WeightBefore(i - 1) + BinWeight(i - 1)
  }

  lemma AddShares(b: int, share: int, m: nat, w: nat, v: nat)
    requires 0 <= 60 * b <= m * w && 0 <= 60 * share <= m * v
    ensures 0 <= 60 * (b + share) <= m * (w + v)
  {
    MulAdd(w, v, m);
  }

  lemma {:induction false} BinsFit(m: nat, i: nat)
    requires i < BINS
    ensures 0 <= 60 * BinsBefore(m, i) <= m * WeightBefore(i)
  {
    hide Share;
    if i > 0 {
      BinsFit(m, i - 1);
      ShareRoundsDown(m, BinWeight(i - 1));
      AddShares(BinsBefore(m, i - 1), Share(m, BinWeight(i - 1)), m, WeightBefore(i - 1), BinWeight(i - 1));
    }
  }

  /** Task slab, trace slab and bump region get 10, 2 and 20 percent of the arena, rounded down. */
  lemma RegionShares(size: nat)
    ensures 100 * TaskBytes(size) <= 10 * size < 100 * TaskBytes(size) + 100
    ensures 100 * TraceBytes(size) <= 2 * size < 100 * TraceBytes(size) + 100
    ensures 100 * BumpBytes(size) <= 20 * size < 100 * BumpBytes(size) + 100
    ensures BlockBytes(size) + TaskBytes(size) + TraceBytes(size) + BumpBytes(size) == size
  {
  }

  /** All bins but the last get 16, 12, 8, 6, 4 and then 2 sixtieths of the block region each, rounded down. */
  lemma BinShares(m: nat, i: nat)
    requires i < 11
    ensures var w := if i == 0 then 16 else if i == 1 then 12 else if i == 2 then 8 else if i == 3 then 6 else if i == 4 then 4 else 2;
      60 * BinBytes(m, i) <= m * w < 60 * BinBytes(m, i) + 60
  {
  }

  lemma {:induction false} WeightsGrow(i: nat)
    requires i < BINS
    ensures WeightBefore(i) <= WeightBefore(11)
    decreases BINS - i
  {
    if i < 11 { WeightsGrow(i + 1); }
  }

  lemma BinsTile(m: nat)
    ensures BinsBefore(m, BINS) == m
  {
  }

  function EmptySlab(): Slab {
    Slab(0, 0, 0, 0, 0, 0, [], -1)
  }

  /** One bin of gmk_block_init: empty when not even one object fits. */
  function BinSlab(ptr: nat, bytes: nat, i: nat): Slab {
    var obj := BinSize(i);
    if bytes < Align8(obj) + 4 then EmptySlab()
    else
      match SlabInit(ptr, bytes, obj)
      case None => EmptySlab()
      case Some(s) => s
  }

  /** The carving loop of gmk_block_init from bin i on. */
  function Carve(ptr: nat, remaining: nat, m: nat, i: nat): (r: seq<Slab>)
    requires i <= BINS
    ensures |r| == BINS - i
    decreases BINS - i
  {
    if i == BINS then []
    else
      var want := if i == BINS - 1 then remaining else Share(m, BinWeight(i));
      var bytes := if want > remaining then remaining else want;
      [BinSlab(ptr, bytes, i)] + Carve(ptr + bytes, remaining - bytes, m, i + 1)
  }

  /** No bin underflows or reaches past the block region. */
  lemma BinsRoom(m: nat, i: nat)
    requires i < BINS
    ensures 0 <= BinsBefore(m, i) && 0 <= BinBytes(m, i) && BinsBefore(m, i) + BinBytes(m, i) <= m
  {
    hide Share;
    WeightsGrow(i);
    BinsFit(m, i);
    assert WeightBefore(11) == 58;
    AtMost60(BinsBefore(m, i), m, WeightBefore(i));
    if i + 1 < BINS {
      WeightsGrow(i + 1);
      BinsFit(m, i + 1);
      AtMost60(BinsBefore(m, i + 1), m, WeightBefore(i + 1));
    }
  }

  lemma AtMost60(b: int, m: nat, w: nat)
    requires 60 * b <= m * w && w <= 58
    ensures b <= m
  {
    MulAdd(w, 58 - w, m);
    assert m * w + m * (58 - w) == m * 58;
  }

  lemma CarveUnfold(ptr: nat, remaining: nat, m: nat, i: nat, bytes: nat)
    requires i < BINS
    requires bytes == (var want := if i == BINS - 1 then remaining else Share(m, BinWeight(i)); if want > remaining then remaining else want)
    ensures bytes <= remaining
    ensures Carve(ptr, remaining, m, i) == [BinSlab(ptr, bytes, i)] + Carve(ptr + bytes, remaining - bytes, m, i + 1)
  {
    hide BinSlab, Share;
  }

  /** The loop's clamp is never needed: each bin sits right behind the bins before it. */
  lemma CarveStep(base: nat, m: nat, i: nat)
    requires i < BINS && 0 <= BinsBefore(m, i) <= m
    ensures 0 <= BinBytes(m, i) && 0 <= BinsBefore(m, i + 1) <= m
    ensures Carve(base + BinsBefore(m, i), m - BinsBefore(m, i), m, i)
         == [BinSlab(base + BinsBefore(m, i), BinBytes(m, i), i)] + Carve(base + BinsBefore(m, i + 1), m - BinsBefore(m, i + 1), m, i + 1)
  {
    hide BinSlab, Share, Carve;
    BinsRoom(m, i);
    CarveUnfold(base + BinsBefore(m, i), m - BinsBefore(m, i), m, i, BinBytes(m, i));
  }

  lemma {:induction false} CarvePlaces(base: nat, m: nat, i: nat, k: nat)
    requires i <= k < BINS && 0 <= BinsBefore(m, i) <= m
    ensures BinsBefore(m, k) >= 0 && BinBytes(m, k) >= 0
    ensures Carve(base + BinsBefore(m, i), m - BinsBefore(m, i), m, i)[k - i] == BinSlab(base + BinsBefore(m, k), BinBytes(m, k), k)
    decreases k - i
  {
    hide BinSlab, Carve, BinsBefore, BinBytes;
    CarveStep(base, m, i);
    if i < k { CarvePlaces(base, m, i + 1, k); }
  }

  // ---- the allocator ------------------------------------------------------------------

  const SLABS: nat := 14   // task slab, trace slab, then the twelve bins
  const TASK: nat := 0
  const TRACE: nat := 1

  /** gmk_alloc_t: `slabs[2 + i]` is bin i; `bytes` and `fails` are the two counters. */
  datatype Alloc = Alloc(base: nat, size: nat, slabs: seq<Slab>, bytes: nat, fails: nat)

  function BlockBase(a: Alloc): nat {
    a.base + TaskBytes(a.size) + TraceBytes(a.size)
  }

  /** Where the memory of slab k begins; 14 is the bump region and 15 the end of the arena. */
  function RegionStart(base: nat, size: nat, k: nat): int
    requires k <= SLABS + 1
  {
    if k == 0 then base
    else if k == 1 then base + TaskBytes(size)
    else if k <= SLABS then base + TaskBytes(size) + TraceBytes(size) + BinsBefore(BlockBytes(size), k - 2)
    else base + size
  }

  /** The regions tile the arena: each ends where the next begins, the first at its start and the last at its end. */
  lemma RegionsTile(base: nat, size: nat, k: nat)
    requires k <= SLABS
    ensures 0 <= RegionStart(base, size, k) <= RegionStart(base, size, k + 1)
    ensures RegionStart(base, size, 0) == base && RegionStart(base, size, SLABS + 1) == base + size
    ensures RegionStart(base, size, SLABS) + BumpBytes(size) == base + size
  {
    hide BinBytes;
    BinsTile(BlockBytes(size));
    if 2 <= k < SLABS { BinsRoom(BlockBytes(size), k - 2); AfterBin(BlockBytes(size), k - 2); }
    assert BinsBefore(BlockBytes(size), 0) == 0;
  }

  lemma AfterBin(m: nat, i: nat)
    requires i < BINS
    ensures BinsBefore(m, i + 1) == BinsBefore(m, i) + BinBytes(m, i)
  {
  }

  lemma {:induction false} RegionsOrdered(base: nat, size: nat, j: nat, k: nat)
    requires j <= k <= SLABS + 1
    ensures 0 <= RegionStart(base, size, j) <= RegionStart(base, size, k)
    decreases k - j
  {
    hide RegionStart;
    if j < k { RegionsTile(base, size, j); RegionsOrdered(base, size, j + 1, k); }
    else if k > 0 { RegionsTile(base, size, k - 1); }
    else { RegionsTile(base, size, 0); }
  }

  function ObjSizeOf(k: nat): nat {
    if k == TASK then TASK_SIZE else if k == TRACE then TRACE_SIZE else BinSize(k - 2)
  }

  /** gmk_alloc_init. */
  function AllocInit(base: nat, size: nat): Option<Alloc> {
    if size < 4096 then None
    else
      var t := SlabInit(base, TaskBytes(size), TASK_SIZE);
      var r := SlabInit(base + TaskBytes(size), TraceBytes(size), TRACE_SIZE);
      if t.None? || r.None? then None
      else
        var m := BlockBytes(size);
        Some(Alloc(base, size, [t.value, r.value] + Carve(base + TaskBytes(size) + TraceBytes(size), m, m, 0), 0, 0))
  }

  /** Allocation from slab k; an empty bin serves nothing. */
  function TakeFrom(a: Alloc, k: nat): (Alloc, Option<nat>)
    requires k < |a.slabs|
  {
    if a.slabs[k].capacity == 0 then (a, None)
    else
      var (s, r) := SlabAlloc(a.slabs[k]);
      (a.(slabs := a.slabs[k := s]), r)
  }

  /** gmk_block_alloc. */
  function BlockAlloc(a: Alloc, size: nat): (Alloc, Option<nat>)
    requires |a.slabs| == SLABS && size < TWO32
  {
    if BinIndex(size) < 0 || BinIndex(size) >= BINS then (a, None) else TakeFrom(a, 2 + BinIndex(size))
  }

  function Route(a: Alloc, size: nat): (Alloc, Option<nat>)
    requires |a.slabs| == SLABS && size < TWO32
  {
    if size == TASK_SIZE then
      var (a1, r) := TakeFrom(a, TASK);
      if r.Some? then (a1, r) else BlockAlloc(a1, size)
    else if size <= BLOCK_MAX then BlockAlloc(a, size)
    else (a, None)
  }

  /** gmk_alloc. */
  function Allocate(a: Alloc, size: nat): (Alloc, Option<nat>)
    requires |a.slabs| == SLABS && size < TWO32
  {
    if size == 0 then (a, None)
    else
      var (a1, r) := Route(a, size);
      (if r.Some? then a1.(bytes := a1.bytes + size) else a1.(fails := a1.fails + 1), r)
  }

  predicate InRegion(s: Slab, p: nat) {
    s.base <= p < s.base + s.total
  }

  function GiveTo(a: Alloc, k: nat, p: nat): Alloc
    requires k < |a.slabs|
  {
    a.(slabs := a.slabs[k := SlabFree(a.slabs[k], p)])
  }

  /** gmk_free: the region of the pointer decides, inside the block region the size picks the bin. */
  function Free(a: Alloc, p: nat, size: nat): Alloc
    requires |a.slabs| == SLABS && size < TWO32
  {
    if p == 0 || size == 0 then a
    else if InRegion(a.slabs[TASK], p) then GiveTo(a, TASK, p)
    else if InRegion(a.slabs[TRACE], p) then GiveTo(a, TRACE, p)
    else if BlockBase(a) <= p < BlockBase(a) + BlockBytes(a.size) then
      if BinIndex(size) < 0 || BinIndex(size) >= BINS || a.slabs[2 + BinIndex(size)].capacity == 0 then a
      else GiveTo(a, 2 + BinIndex(size), p)
    else a
  }

  // ---- invariant ------------------------------------------------------------------------

  datatype Books = Books(live: seq<set<nat>>, chains: seq<seq<int>>)

  ghost predicate SlabOk(a: Alloc, b: Books, k: nat)
    requires k < SLABS && |a.slabs| == SLABS && |b.live| == SLABS && |b.chains| == SLABS
  {
    var s := a.slabs[k];
    if s.capacity == 0 then k >= 2 && s == EmptySlab() && b.live[k] == {}
    else
      && SlabInv(s, b.live[k], b.chains[k])
      && s.base == RegionStart(a.base, a.size, k) && s.base + s.total == RegionStart(a.base, a.size, k + 1)
      && s.objSize == ObjSizeOf(k)
  }

  ghost predicate AllocInv(a: Alloc, b: Books) {
    && a.base > 0 && |a.slabs| == SLABS && |b.live| == SLABS && |b.chains| == SLABS
    && forall k :: 0 <= k < SLABS ==> SlabOk(a, b, k)
  }

  lemma BinSizes(i: nat)
    requires i < BINS
    ensures 32 <= BinSize(i) <= BLOCK_MAX && Align8(BinSize(i)) == BinSize(i)
  {
    hide Align8;
    BinSizeIsPow2(i);
    Pow2Words();
    Pow2Monotone(i + 5, 16);
    assert Pow2(3) == 8 && Pow2(5) == 32;
    Pow2Add(i + 2, 3);
    Pow2Monotone(5, i + 5);
    AlignedMultiple(Pow2(i + 2));
  }

  lemma AlignedMultiple(q: nat)
    requires q * 8 <= BLOCK_MAX
    ensures Align8(q * 8) == q * 8
  {
  }

  /** Bin i occupies region 2 + i. */
  lemma BinRegion(base: nat, size: nat, i: nat)
    requires i < BINS
    ensures var m := BlockBytes(size);
      && 0 <= BinsBefore(m, i) && 0 <= BinBytes(m, i) <= m
      && RegionStart(base, size, 2 + i) == base + TaskBytes(size) + TraceBytes(size) + BinsBefore(m, i)
      && RegionStart(base, size, 3 + i) == RegionStart(base, size, 2 + i) + BinBytes(m, i)
  {
    hide BinBytes, BinsBefore;
    BinsRoom(BlockBytes(size), i);
    AfterBin(BlockBytes(size), i);
  }

  lemma FreshBinSlab(start: nat, bytes: nat, i: nat)
    requires i < BINS && bytes <= MAX_ARENA
    ensures var s := BinSlab(start, bytes, i);
      || s == EmptySlab()
      || (s.capacity > 0 && SlabInv(s, {}, FreeChain.Count(s.capacity)) && s.base == start && s.total == bytes && s.objSize == BinSize(i))
  {
    hide SlabInv, SlabInit, Align8, BinSize;
    BinSizes(i);
    SlabInitInv(start, bytes, BinSize(i));
    InitSize(start, bytes, BinSize(i));
  }

  lemma FreshBin(a: Alloc, b: Books, i: nat)
    requires i < BINS && |a.slabs| == SLABS && |b.live| == SLABS && |b.chains| == SLABS && a.size <= MAX_ARENA
    requires BinsBefore(BlockBytes(a.size), i) >= 0 && BinBytes(BlockBytes(a.size), i) >= 0
    requires a.slabs[2 + i] == BinSlab(BlockBase(a) + BinsBefore(BlockBytes(a.size), i), BinBytes(BlockBytes(a.size), i), i)
    requires b.live[2 + i] == {} && b.chains[2 + i] == FreeChain.Count(a.slabs[2 + i].capacity)
    ensures SlabOk(a, b, 2 + i)
  {
    hide SlabInv, BinSlab, BinBytes, BinsBefore, BinSize, RegionStart;
    BinRegion(a.base, a.size, i);
    FreshBinSlab(BlockBase(a) + BinsBefore(BlockBytes(a.size), i), BinBytes(BlockBytes(a.size), i), i);
  }

  lemma InitSize(base: nat, m: nat, obj: nat)
    ensures var r := SlabInit(base, m, obj); r.Some? ==> r.value.objSize == Align8(obj) && r.value.capacity > 0
  {
    hide Align8;
  }

  /** Initialisation succeeds from 4096 bytes up; every slab starts empty in its own region. */
  lemma AllocInitInv(base: nat, size: nat) returns (b: Books)
    requires base > 0 && 4096 <= size <= MAX_ARENA
    ensures AllocInit(base, size).Some? && AllocInv(AllocInit(base, size).value, b)
    ensures b.live == seq(SLABS, _ => {})
  {
    hide SlabInv, SlabInit, Carve, BinSlab, Align8, SlabOk, BinsBefore;
    assert Align8(TASK_SIZE) == 48 && Align8(TRACE_SIZE) == 32 by { AlignedMultiple(6); AlignedMultiple(4); }
    SlabInitInv(base, TaskBytes(size), TASK_SIZE);
    SlabInitInv(base + TaskBytes(size), TraceBytes(size), TRACE_SIZE);
    var a := AllocInit(base, size).value;
    assert a.slabs[2..] == Carve(BlockBase(a), BlockBytes(size), BlockBytes(size), 0);
    b := Books(seq(SLABS, _ => {}), seq(SLABS, k requires 0 <= k < SLABS => FreeChain.Count(a.slabs[k].capacity)));
    assert SlabOk(a, b, TASK) by { FreshFront(a, b, TASK); }
    assert SlabOk(a, b, TRACE) by { FreshFront(a, b, TRACE); }
    forall k | 2 <= k < SLABS ensures SlabOk(a, b, k) { FreshCarved(a, b, k); }
  }

  lemma FreshCarved(a: Alloc, b: Books, k: nat)
    requires 2 <= k < SLABS && |a.slabs| == SLABS && |b.live| == SLABS && |b.chains| == SLABS && a.size <= MAX_ARENA
    requires var m := BlockBytes(a.size); a.slabs[2..] == Carve(BlockBase(a), m, m, 0)
    requires b.live[k] == {} && b.chains[k] == FreeChain.Count(a.slabs[k].capacity)
    ensures SlabOk(a, b, k)
  {
    hide SlabOk, Carve, BinSlab, BinBytes, BlockBytes;
    var m := BlockBytes(a.size);
    assert BinsBefore(m, 0) == 0;
    CarvePlaces(BlockBase(a), m, 0, k - 2);
    assert a.slabs[k] == a.slabs[2..][k - 2];
    FreshBin(a, b, k - 2);
  }

  lemma FreshFront(a: Alloc, b: Books, k: nat)
    requires k < 2 && |a.slabs| == SLABS && |b.live| == SLABS && |b.chains| == SLABS && 4096 <= a.size <= MAX_ARENA
    requires SlabInit(RegionStart(a.base, a.size, k), if k == TASK then TaskBytes(a.size) else TraceBytes(a.size), ObjSizeOf(k)) == Some(a.slabs[k])
    requires b.live[k] == {} && b.chains[k] == FreeChain.Count(a.slabs[k].capacity)
    ensures SlabOk(a, b, k)
  {
    hide SlabInv, SlabInit, Align8;
    assert Align8(TASK_SIZE) == 48 && Align8(TRACE_SIZE) == 32 by { AlignedMultiple(6); AlignedMultiple(4); }
    var m := if k == TASK then TaskBytes(a.size) else TraceBytes(a.size);
    SlabInitInv(RegionStart(a.base, a.size, k), m, ObjSizeOf(k));
    InitSize(RegionStart(a.base, a.size, k), m, ObjSizeOf(k));
    assert BinsBefore(BlockBytes(a.size), 0) == 0;
  }

  // ---- allocation and free ------------------------------------------------------------------

  /** Slab k is one that a request of this size may be served from. */
  predicate Serves(k: nat, size: nat)
    requires size < TWO32
  {
    || (k == TASK && size == TASK_SIZE)
    || (0 < size <= BLOCK_MAX && k == 2 + BinIndex(size))
  }

  function Mark(b: Books, k: nat, live: set<nat>, chain: seq<int>): Books
    requires k < |b.live| && k < |b.chains|
  {
    Books(b.live[k := live], b.chains[k := chain])
  }

  lemma OneSlabChanges(a: Alloc, b: Books, k: nat, s: Slab, live: set<nat>, chain: seq<int>)
    requires AllocInv(a, b) && k < SLABS && a.slabs[k].capacity > 0
    requires SlabInv(s, live, chain) && s.base == a.slabs[k].base && s.total == a.slabs[k].total && s.objSize == a.slabs[k].objSize
    ensures AllocInv(a.(slabs := a.slabs[k := s]), Mark(b, k, live, chain))
  {
    hide SlabInv, RegionStart, ObjSizeOf;
    assert SlabOk(a, b, k);
    var a', b' := a.(slabs := a.slabs[k := s]), Mark(b, k, live, chain);
    SlabHasRoom(s, live, chain);
    forall j | 0 <= j < SLABS ensures SlabOk(a', b', j) { assert SlabOk(a, b, j); }
  }

  lemma SlabHasRoom(s: Slab, live: set<nat>, chain: seq<int>)
    requires SlabInv(s, live, chain)
    ensures s.capacity > 0
  {
  }

  lemma TakeFromKeeps(a: Alloc, b: Books, k: nat) returns (b': Books, i: nat)
    requires AllocInv(a, b) && k < SLABS
    ensures var (a', r) := TakeFrom(a, k);
      && (r.None? ==> a' == a && b' == b)
      && (r.None? <==> |b.live[k]| == a.slabs[k].capacity)
      && |a'.slabs| == SLABS && a'.base == a.base && a'.size == a.size && a'.slabs[k].capacity == a.slabs[k].capacity
      && (r.Some? ==> a.slabs[k].capacity > 0 && i !in b.live[k] && r.value == ObjAddr(a.slabs[k], i) && AllocInv(a', b')
                      && b'.live == b.live[k := b.live[k] + {i}])
  {
    hide SlabInv, SlabAlloc, RegionStart, ObjSizeOf;
    b', i := b, 0;
    assert SlabOk(a, b, k);
    var s := a.slabs[k];
    if s.capacity > 0 {
      SlabShape(s, b.live[k], b.chains[k]);
      SlabAllocKeeps(s, b.live[k], b.chains[k]);
      var (s', r) := SlabAlloc(s);
      if r.Some? {
        i := b.chains[k][0];
        b' := Mark(b, k, b.live[k] + {i}, b.chains[k][1..]);
        OneSlabChanges(a, b, k, s', b.live[k] + {i}, b.chains[k][1..]);
      } else {
        assert a.slabs[k := s] == a.slabs;
      }
    }
  }

  /**
   gmk_alloc hands out a slot that was not live, from a slab whose objects fit the request, and
   fails exactly when every slab that may serve the request is full (a 48-byte request falls back
   from the task slab to its bin).
   */
  lemma AllocateKeeps(a: Alloc, b: Books, size: nat) returns (b': Books, k: nat, i: nat)
    requires AllocInv(a, b) && 0 < size < TWO32
    ensures var (a', r) := Allocate(a, size);
      && AllocInv(a', b') && a'.base == a.base && a'.size == a.size
      && (r.None? <==> forall j :: 0 <= j < SLABS && Serves(j, size) ==> |b.live[j]| == a.slabs[j].capacity)
      && (r.None? ==> a'.slabs == a.slabs && b' == b)
      && (r.Some? ==> k < SLABS && Serves(k, size) && a'.slabs[k].capacity == a.slabs[k].capacity > 0)
      && (r.Some? ==> i !in b.live[k] && r.value == ObjAddr(a.slabs[k], i)
                      && b'.live == b.live[k := b.live[k] + {i}])
  {
    hide SlabInv, TakeFrom, BinIndex, RegionStart, ObjSizeOf;
    BinIndexIsLeastFit(size);
    b', k, i := b, 0, 0;
    var at := a;
    var tried := false;
    if size == TASK_SIZE {
      k := TASK;
      b', i := TakeFromKeeps(a, b, TASK);
      tried := TakeFrom(a, TASK).1.Some?;
    }
    if !tried && size <= BLOCK_MAX {
      k := 2 + BinIndex(size);
      b', i := TakeFromKeeps(a, b, k);
    }
    var (a', r) := Allocate(a, size);
    var a1 := Route(a, size).0;
    assert a'.slabs == a1.slabs && a'.base == a1.base && a'.size == a1.size;
    assert AllocInv(a1, b');
    forall j | 0 <= j < SLABS ensures SlabOk(a', b', j) { assert SlabOk(a1, b', j); }
  }

  /**
   Which slab serves: 48-byte requests the task slab as long as it has a free slot, everything else and
   then those too the least bin that fits; the counters go up by the bytes served or by one failure.
   */
  lemma AllocateServes(a: Alloc, b: Books, size: nat) returns (k: nat, i: nat)
    requires AllocInv(a, b) && 0 < size < TWO32
    ensures var (a', r) := Allocate(a, size);
      && (r.Some? ==> k < SLABS && i !in b.live[k] && r.value == ObjAddr(a.slabs[k], i))
      && (r.Some? && size == 48 && |b.live[TASK]| < a.slabs[TASK].capacity ==> k == TASK)
      && (r.Some? && !(size == 48 && |b.live[TASK]| < a.slabs[TASK].capacity) ==>
            k >= 2 && size <= BinSize(k - 2) && forall j: nat :: j < BINS && size <= BinSize(j) ==> k - 2 <= j)
      && (forall j :: 0 <= j < SLABS && (r.None? || j != k) ==> a'.slabs[j] == a.slabs[j])
      && a'.bytes == (if r.Some? then a.bytes + size else a.bytes) && a'.fails == (if r.Some? then a.fails else a.fails + 1)
  {
    hide SlabInv, TakeFrom, BinIndex, RegionStart, ObjSizeOf, BinSize;
    BinIndexIsLeastFit(size);
    var b' := b;
    k, i := 0, 0;
    FitsABin(size);
    LiveAtMost(a, b, TASK);
    if size == TASK_SIZE {
      b', i := TakeFromKeeps(a, b, TASK);
      TakeCounters(a, TASK);
    }
    if !(size == TASK_SIZE && TakeFrom(a, TASK).1.Some?) && size <= BLOCK_MAX {
      k := 2 + BinIndex(size);
      b', i := TakeFromKeeps(a, b, k);
      TakeCounters(a, k);
    }
  }

  lemma LiveAtMost(a: Alloc, b: Books, k: nat)
    requires AllocInv(a, b) && k < SLABS
    ensures |b.live[k]| <= a.slabs[k].capacity
  {
    hide SlabInv, RegionStart, ObjSizeOf;
    assert SlabOk(a, b, k);
    if a.slabs[k].capacity > 0 {
      SlabShape(a.slabs[k], b.live[k], b.chains[k]);
      FreeAndLive(a.slabs[k], b.live[k], b.chains[k]);
    }
  }

  lemma FitsABin(size: nat)
    ensures size == TASK_SIZE ==> size <= BLOCK_MAX
  {
  }

  lemma TakeCounters(a: Alloc, k: nat)
    requires k < |a.slabs|
    ensures var (a', r) := TakeFrom(a, k);
      && a'.bytes == a.bytes && a'.fails == a.fails && |a'.slabs| == |a.slabs|
      && forall j :: 0 <= j < |a.slabs| && j != k ==> a'.slabs[j] == a.slabs[j]
  {
  }

  lemma SlotInRegion(a: Alloc, b: Books, k: nat, i: nat)
    requires AllocInv(a, b) && k < SLABS && i < a.slabs[k].capacity
    ensures RegionStart(a.base, a.size, k) <= ObjAddr(a.slabs[k], i)
    ensures ObjAddr(a.slabs[k], i) + ObjSizeOf(k) <= RegionStart(a.base, a.size, k + 1) && ObjSizeOf(k) > 0
  {
    hide RegionStart, ObjSizeOf, FreeChain.Chain;
    assert SlabOk(a, b, k);
    var s := a.slabs[k];
    Within(i, s.capacity, s.objSize);
    assert s.capacity * (s.objSize + 4) == s.capacity * s.objSize + 4 * s.capacity;
  }

  /** Objects of all slabs are pairwise disjoint and lie outside the bump region. */
  lemma ObjectsDisjoint(a: Alloc, b: Books, k: nat, i: nat, k': nat, i': nat)
    requires AllocInv(a, b) && k < SLABS && k' < SLABS && i in b.live[k] && i' in b.live[k'] && (k != k' || i != i')
    ensures var p, q := ObjAddr(a.slabs[k], i), ObjAddr(a.slabs[k'], i'); p + ObjSizeOf(k) <= q || q + ObjSizeOf(k') <= p
    ensures ObjAddr(a.slabs[k], i) + ObjSizeOf(k) <= RegionStart(a.base, a.size, SLABS)
  {
    hide RegionStart, ObjSizeOf, FreeChain.Chain;
    assert SlabOk(a, b, k) && SlabOk(a, b, k');
    SlotInRegion(a, b, k, i);
    SlotInRegion(a, b, k', i');
    RegionsOrdered(a.base, a.size, k + 1, SLABS);
    if k < k' { RegionsOrdered(a.base, a.size, k + 1, k'); }
    else if k' < k { RegionsOrdered(a.base, a.size, k' + 1, k); }
    else if i < i' { Within(i, i', a.slabs[k].objSize); }
    else { Within(i', i, a.slabs[k].objSize); }
  }

  /** Routing by address and size finds the slab that served the object. */
  lemma FreeFindsItsSlab(a: Alloc, b: Books, k: nat, i: nat, size: nat)
    requires AllocInv(a, b) && k < SLABS && 0 < size < TWO32 && Serves(k, size) && i in b.live[k]
    ensures Free(a, ObjAddr(a.slabs[k], i), size) == GiveTo(a, k, ObjAddr(a.slabs[k], i))
  {
    hide SlabInv, SlabFree, BinIndex, InRegion, AllocInv;
    RoutedTo(a, b, k, i, size);
  }

  /** The tests of gmk_free send a live object to its own slab and to no other. */
  lemma RoutedTo(a: Alloc, b: Books, k: nat, i: nat, size: nat)
    requires AllocInv(a, b) && k < SLABS && 0 < size < TWO32 && Serves(k, size) && i in b.live[k]
    ensures var p := ObjAddr(a.slabs[k], i);
      && p > 0 && (InRegion(a.slabs[TASK], p) <==> k == TASK)
      && (k != TASK ==> k >= 2 && !InRegion(a.slabs[TRACE], p) && BlockBase(a) <= p < BlockBase(a) + BlockBytes(a.size))
      && (k != TASK ==> k == 2 + BinIndex(size) && 0 <= BinIndex(size) < BINS && a.slabs[k].capacity > 0)
  {
    hide SlabInv, SlabFree, BinIndex, BinSize, BinsBefore;
    BinIndexIsLeastFit(size);
    assert SlabOk(a, b, k) && SlabOk(a, b, TASK) && SlabOk(a, b, TRACE);
    LiveSlot(a.slabs[k], b.live[k], b.chains[k], i);
    SlotInRegion(a, b, k, i);
    RegionsOrdered(a.base, a.size, 0, k);
    if k >= 2 {
      RegionsOrdered(a.base, a.size, 2, k);
      RegionsOrdered(a.base, a.size, k + 1, SLABS);
      BinsTile(BlockBytes(a.size));
      NoBinsBefore(BlockBytes(a.size));
    }
  }

  lemma NoBinsBefore(m: nat)
    ensures BinsBefore(m, 0) == 0
  {
  }

  lemma LiveSlot(s: Slab, live: set<nat>, chain: seq<int>, i: nat)
    requires SlabInv(s, live, chain) && i in live
    ensures i < s.capacity
  {
  }

  /**
   gmk_free with the size of the request returns the object to the slot it came from; the other
   slabs and all other live objects stay as they are.
   */
  lemma FreeKeeps(a: Alloc, b: Books, k: nat, i: nat, size: nat) returns (b': Books)
    requires AllocInv(a, b) && k < SLABS && 0 < size < TWO32 && Serves(k, size) && i in b.live[k]
    ensures AllocInv(Free(a, ObjAddr(a.slabs[k], i), size), b')
    ensures b'.live == b.live[k := b.live[k] - {i}]
    ensures forall j :: 0 <= j < SLABS && j != k ==> Free(a, ObjAddr(a.slabs[k], i), size).slabs[j] == a.slabs[j]
  {
    hide SlabInv, SlabFree, Free, RegionStart, ObjSizeOf;
    FreeFindsItsSlab(a, b, k, i, size);
    assert SlabOk(a, b, k);
    var s := a.slabs[k];
    SlabFreeKeeps(s, b.live[k], b.chains[k], i);
    LiveSlot(s, b.live[k], b.chains[k], i);
    FreeShape(s, ObjAddr(s, i));
    b' := Mark(b, k, b.live[k] - {i}, [i] + b.chains[k]);
    OneSlabChanges(a, b, k, SlabFree(s, ObjAddr(s, i)), b.live[k] - {i}, [i] + b.chains[k]);
  }

  lemma FreeShape(s: Slab, p: nat)
    ensures var s' := SlabFree(s, p); s'.base == s.base && s'.total == s.total && s'.objSize == s.objSize && s'.capacity == s.capacity
  {
  }

  // ---- refcounted payloads: the header in front of the data ------------------------------------

  const HEADER: nat := 8

  /** gmk_payload_alloc: the block holds the 8-byte header and the data; the caller gets the data address. */
  function PayloadAlloc(a: Alloc, size: nat): (Alloc, Option<nat>)
    requires |a.slabs| == SLABS && size < TWO32
  {
    if size == 0 then (a, None)
    else
      var (a', r) := Allocate(a, Wrap(HEADER + size));
      (a', if r.None? then None else Some(r.value + HEADER))
  }

  /** The free done by gmk_payload_release on the last reference. */
  function PayloadFree(a: Alloc, p: nat, size: nat): Alloc
    requires |a.slabs| == SLABS && size < TWO32 && p >= HEADER
  {
    Free(a, p - HEADER, Wrap(HEADER + size))
  }

  /** Releasing the last reference right away gives back exactly the block that the payload took. */
  lemma PayloadRoundTrip(a: Alloc, b: Books, size: nat) returns (b': Books)
    requires AllocInv(a, b) && 0 < size && HEADER + size < TWO32 && PayloadAlloc(a, size).1.Some?
    ensures var (a1, r) := PayloadAlloc(a, size);
      r.value >= HEADER && AllocInv(PayloadFree(a1, r.value, size), b') && b'.live == b.live
  {
    hide SlabInv, SlabFree, SlabAlloc, Free, Route, RegionStart, ObjSizeOf, SlabOk, BinIndex;
    var total := HEADER + size;
    var b1, k, i := AllocateKeeps(a, b, total);
    var a1 := Allocate(a, total).0;
    assert i in b1.live[k];
    SameAddress(a, b, a1, b1, k, i);
    b' := FreeKeeps(a1, b1, k, i, total);
    assert b1.live[k] - {i} == b.live[k];
    assert b1.live[k := b.live[k]] == b.live;
  }

  lemma SameAddress(a: Alloc, b: Books, a': Alloc, b': Books, k: nat, i: nat)
    requires AllocInv(a, b) && AllocInv(a', b') && k < SLABS && a'.base == a.base && a'.size == a.size
    requires a.slabs[k].capacity > 0 && a'.slabs[k].capacity > 0
    ensures ObjAddr(a'.slabs[k], i) == ObjAddr(a.slabs[k], i)
  {
    assert SlabOk(a, b, k) && SlabOk(a', b', k);
  }
}
