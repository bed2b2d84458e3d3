/** The fixed-size slab allocator of src/alloc_slab.c: an index free list kept inside the slab's own memory. */
module Slabs {
  import opened Words
  import opened FreeChain
  import opened Options

  datatype Slab = Slab(
    base: nat, total: nat, objSize: nat, capacity: nat,
    count: nat, highWater: nat, freeList: seq<int>, freeHead: int)

  /** `(obj_size + 7) & ~7` in 32 bits. */
  function Align8(x: nat): nat {
    Wrap(x + 7) / 8 * 8
  }

  function FreshList(capacity: nat): seq<int> {
    seq(capacity, i requires 0 <= i < capacity => if i + 1 < capacity then i + 1 else -1)
  }

  function SlabInit(base: nat, memSize: nat, objSize: nat): Option<Slab> {
    if objSize == 0 then None
    else
      var obj := Align8(objSize);
      var capacity := Wrap(memSize / (obj + 4));
      if capacity == 0 then None
      else Some(Slab(base, memSize, obj, capacity, 0, 0, FreshList(capacity), 0))
  }

  function ObjAddr(s: Slab, i: nat): nat {
    s.base + i * s.objSize
  }

  function SlabAlloc(s: Slab): (Slab, Option<nat>) {
    if !(0 <= s.freeHead < |s.freeList|) then (s, None)
    else
      var idx := s.freeHead;
      var n := s.count + 1;
      (s.(freeHead := s.freeList[idx], count := n, highWater := if n > s.highWater then n else s.highWater),
       Some(ObjAddr(s, idx)))
  }

  /** The slot a pointer falls in, as the source computes it. */
  function SlotOf(s: Slab, p: nat): nat
    requires p >= s.base && s.objSize > 0
  {
    Wrap((p - s.base) / s.objSize)
  }

  /** Whether gmk_slab_free takes the pointer rather than ignoring it. */
  predicate InSlab(s: Slab, p: nat) {
    p >= s.base && s.objSize > 0 && SlotOf(s, p) < s.capacity && |s.freeList| == s.capacity
  }

  function SlabFree(s: Slab, p: nat): Slab {
    if !InSlab(s, p) then s
    else
      var idx := SlotOf(s, p);
      s.(freeList := s.freeList[idx := s.freeHead], freeHead := idx, count := if s.count > 0 then s.count - 1 else TWO32 - 1)
  }

  // ---- invariant ---------------------------------------------------------------------

  /** `live` are the allocated slots; `chain` is what following free_list from free_head visits. */
  ghost predicate SlabInv(s: Slab, live: set<nat>, chain: seq<int>) {
    && s.objSize > 0 && 0 < s.capacity <= TWO31 && |s.freeList| == s.capacity
    && s.capacity * (s.objSize + 4) <= s.total
    && Chain(s.freeList, s.freeHead, -1, chain)
    && (forall i: nat :: i < s.capacity ==> (i in live <==> i !in chain))
    && (forall i :: i in live ==> i < s.capacity)
    && s.count == |live| <= s.highWater
  }

  lemma SlabShape(s: Slab, live: set<nat>, chain: seq<int>)
    requires SlabInv(s, live, chain)
    ensures s.objSize > 0 && |s.freeList| == s.capacity && s.count == |live|
    ensures s.freeHead < s.capacity && (chain != [] ==> s.freeHead == chain[0] && s.freeHead >= 0)
    ensures live != {} ==> s.count > 0
  {
  }

  /** The free list covers exactly the unallocated slots. */
  lemma FreeAndLive(s: Slab, live: set<nat>, chain: seq<int>)
    requires SlabInv(s, live, chain)
    ensures s.count + |chain| == s.capacity
  {
    forall i | i in chain ensures 0 <= i < s.capacity { var k :| 0 <= k < |chain| && chain[k] == i; }
    ChainPartition(s.capacity, chain, live);
  }

  lemma SlabInitInv(base: nat, memSize: nat, objSize: nat)
    requires 0 < objSize && objSize + 7 < TWO32 && memSize / 12 <= TWO31
    ensures var r := SlabInit(base, memSize, objSize);
      && (r.None? <==> memSize < Align8(objSize) + 4)
      && (r.Some? ==> SlabInv(r.value, {}, Count(r.value.capacity)) && r.value.base == base && r.value.total == memSize)
      && (r.Some? ==> objSize <= r.value.objSize < objSize + 8 && r.value.objSize % 8 == 0)
      && (r.Some? ==> memSize < (r.value.capacity + 1) * (r.value.objSize + 4))
  {
    hide SlabInv, Align8, Count;
    AlignedSize(objSize);
    var obj := Align8(objSize);
    QuotientBounds(memSize, obj + 4);
    var cap := memSize / (obj + 4);
    NoMoreFit(memSize, obj + 4);
    if cap > 0 { FreshSlab(base, memSize, obj, cap); }
  }

  /** The quotient is the greatest number of objects that fit. */
  lemma NoMoreFit(m: nat, d: nat)
    requires d > 0
    ensures m < (m / d + 1) * d
  {
    assert m == m / d * d + m % d;
  }

  lemma AlignedSize(x: nat)
    requires 0 < x && x + 7 < TWO32
    ensures 8 <= Align8(x) && x <= Align8(x) < x + 8 && Align8(x) % 8 == 0
  {
  }

  lemma FreshSlab(base: nat, memSize: nat, obj: nat, cap: nat)
    requires obj > 0 && 0 < cap <= TWO31 && cap * (obj + 4) <= memSize
    ensures SlabInv(Slab(base, memSize, obj, cap, 0, 0, FreshList(cap), 0), {}, Count(cap))
  {
    var c := Count(cap);
    forall i: nat | i < cap ensures i in c { assert c[i] == i; }
  }

  lemma QuotientBounds(m: nat, d: nat)
    requires d >= 12
    ensures m / d <= m / 12 && (m / d) * d <= m && (m / d == 0 <==> m < d)
  {
    var q, r := m / d, m % d;
    assert m == q * d + r;
    MulAdd(12, d - 12, q);
    assert q * 12 <= q * d;
    if q > 0 { MulAtLeast(q, d); }
    AtMost(q, m);
  }

  lemma AtMost(q: nat, m: nat)
    requires q * 12 <= m
    ensures q <= m / 12
  {
  }

  /** Alloc hands out the first free slot, and fails exactly when every slot is live. */
  lemma SlabAllocKeeps(s: Slab, live: set<nat>, chain: seq<int>)
    requires SlabInv(s, live, chain)
    ensures var (s', r) := SlabAlloc(s);
      && (r.None? <==> s.count == s.capacity)
      && (r.None? ==> s' == s)
      && (r.Some? ==> chain != [] && chain[0] >= 0 && chain[0] !in live && r.value == ObjAddr(s, chain[0])
                      && SlabInv(s', live + {chain[0] as nat}, chain[1..]))
      && s'.base == s.base && s'.total == s.total && s'.objSize == s.objSize && s'.capacity == s.capacity
      && s'.highWater == (if s'.count > s.highWater then s'.count else s.highWater)
  {
    FreeAndLive(s, live, chain);
    if chain != [] {
      ChainPop(s.freeList, s.freeHead, -1, chain);
      var i: nat := chain[0];
      var (s', r) := SlabAlloc(s);
      forall j: nat | j < s.capacity ensures j in live + {i} <==> j !in chain[1..] {
        assert chain == [chain[0]] + chain[1..];
      }
    }
  }

  lemma SlotOfAddr(s: Slab, i: nat)
    requires s.objSize > 0 && i < s.capacity <= TWO31
    ensures ObjAddr(s, i) >= s.base && SlotOf(s, ObjAddr(s, i)) == i
  {
    DivModUnique(i * s.objSize, i, s.objSize, 0);
    NonNegative(i, s.objSize);
  }

  lemma NonNegative(a: nat, b: nat)
    ensures a * b >= 0
  {
  }

  /** Freeing a live object returns exactly its slot to the front of the list. */
  lemma SlabFreeKeeps(s: Slab, live: set<nat>, chain: seq<int>, i: nat)
    requires SlabInv(s, live, chain) && i in live
    ensures SlabInv(SlabFree(s, ObjAddr(s, i)), live - {i}, [i] + chain)
    ensures SlabFree(s, ObjAddr(s, i)).highWater == s.highWater
  {
    hide Chain, ObjAddr;
    SlotOfAddr(s, i);
    ChainPush(s.freeList, s.freeHead, -1, chain, i);
    forall j: nat | j < s.capacity ensures j in live - {i} <==> j !in [i as int] + chain { }
  }

  /** Slots do not overlap each other, and the free list array lies behind them inside the slab's memory. */
  lemma ObjectsAreDisjoint(s: Slab, live: set<nat>, chain: seq<int>, i: nat, j: nat)
    requires SlabInv(s, live, chain) && i < j < s.capacity
    ensures s.base <= ObjAddr(s, i) && ObjAddr(s, i) + s.objSize <= ObjAddr(s, j)
    ensures ObjAddr(s, j) + s.objSize <= ObjAddr(s, s.capacity)
    ensures ObjAddr(s, s.capacity) + 4 * s.capacity <= s.base + s.total
  {
    hide Chain;
    Within(i, j, s.objSize);
    Within(j, s.capacity, s.objSize);
    Distribute(s.capacity, s.objSize);
    NonNegative(i, s.objSize);
  }

  lemma Distribute(n: nat, d: nat)
    ensures n * (d + 4) == n * d + 4 * n
  {
  }

  lemma Within(i: nat, j: nat, d: nat)
    requires i < j
    ensures i * d + d <= j * d
  {
    MulAdd(i, j - i, d);
    MulAtLeast(j - i, d);
  }

  // ---- runs --------------------------------------------------------------------------

  datatype SlabOp = AllocOp | FreeOp(slot: nat)

  function Exec(s: Slab, op: SlabOp): Slab {
    match op
    case AllocOp => SlabAlloc(s).0
    case FreeOp(i) => SlabFree(s, ObjAddr(s, i))
  }

  ghost function LiveAfter(s: Slab, live: set<nat>, op: SlabOp): set<nat> {
    match op
    case AllocOp => if 0 <= s.freeHead < |s.freeList| then live + {s.freeHead as nat} else live
    case FreeOp(i) => live - {i}
  }

  /** Only live objects are freed. */
  ghost predicate LegalOps(s: Slab, live: set<nat>, ops: seq<SlabOp>)
    decreases |ops|
  {
    ops != [] ==>
      && (ops[0].FreeOp? ==> ops[0].slot in live)
      && LegalOps(Exec(s, ops[0]), LiveAfter(s, live, ops[0]), ops[1..])
  }

  function ExecAll(s: Slab, ops: seq<SlabOp>): Slab
    decreases |ops|
  {
    if ops == [] then s else ExecAll(Exec(s, ops[0]), ops[1..])
  }

  /** The largest alloc_count seen, from the starting high-water mark on. */
  function Peak(s: Slab, ops: seq<SlabOp>): nat
    decreases |ops|
  {
    if ops == [] then s.count
    else var p := Peak(Exec(s, ops[0]), ops[1..]); if p > s.count then p else s.count
  }

  /** Any run of allocs and frees of live objects keeps a faithful free list, and high_water is the peak count. */
  lemma {:induction false} RunKeeps(s: Slab, live: set<nat>, chain: seq<int>, ops: seq<SlabOp>)
    returns (live': set<nat>, chain': seq<int>)
    requires SlabInv(s, live, chain) && LegalOps(s, live, ops)
    ensures SlabInv(ExecAll(s, ops), live', chain')
    ensures ExecAll(s, ops).highWater == if Peak(s, ops) > s.highWater then Peak(s, ops) else s.highWater
    decreases |ops|
  {
    if ops == [] {
      live', chain' := live, chain;
    } else if ops[0].AllocOp? {
      SlabAllocKeeps(s, live, chain);
      if chain == [] {
        live', chain' := RunKeeps(s, live, chain, ops[1..]);
      } else {
        live', chain' := RunKeeps(SlabAlloc(s).0, live + {chain[0] as nat}, chain[1..], ops[1..]);
      }
    } else {
      var i := ops[0].slot;
      SlabFreeKeeps(s, live, chain, i);
      live', chain' := RunKeeps(SlabFree(s, ObjAddr(s, i)), live - {i}, [i] + chain, ops[1..]);
    }
  }

  // ---- the slab as the source updates it -------------------------------------------------

  class SlabAllocator {
    const base: nat
    const total: nat
    const objSize: nat
    const capacity: nat
    const freeList: array<int>
    var freeHead: int
    var count: nat
    var highWater: nat

    ghost var live: set<nat>
    ghost var chain: seq<int>

    ghost function State(): Slab
      reads this, freeList
    {
      Slab(base, total, objSize, capacity, count, highWater, freeList[..], freeHead)
    }

    ghost predicate Valid()
      reads this, freeList
    {
      SlabInv(State(), live, chain)
    }

    /** Each slot points to the next, the last one to -1. */
    static method LinkSlots(n: nat) returns (links: array<int>)
      requires n > 0
      ensures fresh(links) && links[..] == FreshList(n)
    {
      links := new int[n];
      for i := 0 to n - 1
        invariant forall k :: 0 <= k < i ==> links[k] == k + 1
      {
        links[i] := i + 1;
      }
      links[n - 1] := -1;
    }

    /** gmk_slab_init, once its size test has passed. */
    constructor (mem: nat, memSize: nat, obj: nat)
      requires 0 < obj && obj + 7 < TWO32 && memSize / 12 <= TWO31 && memSize >= Align8(obj) + 4
      ensures fresh(freeList) && Valid() && live == {}
      ensures SlabInit(mem, memSize, obj) == Some(State())
    {
      hide SlabInv, Align8;
      SlabInitInv(mem, memSize, obj);
      var size := Align8(obj);
      var cap := Wrap(memSize / (size + 4));
      base, total, objSize, capacity := mem, memSize, size, cap;
      var links := SlabAllocator.LinkSlots(cap);
      freeList := links;
      freeHead, count, highWater := 0, 0, 0;
      live, chain := {}, Count(cap);
    }

    method Alloc() returns (r: Option<nat>)
      requires Valid()
      modifies this
      ensures Valid() && (State(), r) == SlabAlloc(old(State()))
      ensures r.None? <==> |old(live)| == capacity
      ensures r.None? ==> live == old(live)
      ensures r.Some? ==> exists i: nat :: i !in old(live) && live == old(live) + {i} && r.value == ObjAddr(State(), i)
    {
      hide SlabInv;
      SlabShape(State(), live, chain);
      SlabAllocKeeps(State(), live, chain);
      if freeHead < 0 { return None; }
      var idx: nat := freeHead;
      freeHead := freeList[idx];
      count := count + 1;
      if count > highWater { highWater := count; }
      live, chain := live + {idx}, chain[1..];
      r := Some(base + idx * objSize);
    }

    /** gmk_slab_free: pointers outside the slots are ignored; the caller frees only what is live. */
    method Free(p: nat)
      requires Valid()
      requires InSlab(State(), p) ==> SlotOf(State(), p) in live && p == ObjAddr(State(), SlotOf(State(), p))
      modifies this, freeList
      ensures Valid() && State() == SlabFree(old(State()), p)
      ensures live == if InSlab(old(State()), p) then old(live) - {SlotOf(old(State()), p)} else old(live)
    {
      hide SlabInv;
      SlabShape(State(), live, chain);
      if p < base { return; }
      var idx := Wrap((p - base) / objSize);
      if idx >= capacity { return; }
      SlabFreeKeeps(State(), live, chain, idx);
      freeList[idx] := freeHead;
      freeHead := idx;
      count := count - 1;
      live, chain := live - {idx}, [idx] + chain;
      assert freeList[..] == old(freeList[..])[idx := old(freeHead)];
    }
  }
}
