/** Clients of the arena allocator: over every run of gmk_alloc and gmk_free, the blocks they hold never overlap. */
module ArenaRuns {
  import opened Words
  import opened Options
  import opened Slabs
  import opened Arena

  /** The allocator and what its clients hold: address and requested size of every block. */
  datatype Client = Client(a: Alloc, held: map<nat, nat>)

  datatype Op = Get(size: nat) | Put(p: nat)

  /** A block is freed with the size it was requested with. */
  function Step(c: Client, op: Op): Client
    requires |c.a.slabs| == SLABS && (op.Get? ==> op.size < TWO32)
  {
    match op
    case Get(size) =>
      var (a, r) := Allocate(c.a, size);
      Client(a, if r.Some? then c.held[r.value := size] else c.held)
    case Put(p) =>
      if p in c.held && c.held[p] < TWO32 then Client(Free(c.a, p, c.held[p]), c.held - {p}) else c
  }

  /** Slot i of slab k is live, lies at p, and serves requests of this size. */
  ghost predicate Owner(a: Alloc, b: Books, k: nat, i: nat, p: nat, size: nat) {
    && k < SLABS && k < |b.live| && k < |a.slabs| && i in b.live[k]
    && p == ObjAddr(a.slabs[k], i) && 0 < size < TWO32 && Serves(k, size)
  }

  /** Held blocks and live slots correspond one to one. */
  ghost predicate Matches(c: Client, b: Books) {
    && AllocInv(c.a, b)
    && (forall p :: p in c.held ==> exists k: nat, i: nat :: Owner(c.a, b, k, i, p, c.held[p]))
    && (forall k: nat, i: nat :: k < SLABS && i in b.live[k] ==> ObjAddr(c.a.slabs[k], i) in c.held)
  }

  lemma OwnerFits(a: Alloc, b: Books, k: nat, i: nat, p: nat, size: nat)
    requires AllocInv(a, b) && Owner(a, b, k, i, p, size)
    ensures size <= ObjSizeOf(k) && i < a.slabs[k].capacity
  {
    hide SlabInv, RegionStart, BinIndex;
    BinIndexIsLeastFit(size);
    assert SlabOk(a, b, k);
    LiveSlot(a.slabs[k], b.live[k], b.chains[k], i);
  }

  /** Two slots at one address are one slot. */
  lemma OneSlot(a: Alloc, b: Books, k: nat, i: nat, k': nat, i': nat)
    requires AllocInv(a, b) && k < SLABS && k' < SLABS && i < a.slabs[k].capacity && i' < a.slabs[k'].capacity
    requires ObjAddr(a.slabs[k], i) == ObjAddr(a.slabs[k'], i')
    ensures k == k' && i == i'
  {
    hide RegionStart, ObjSizeOf, SlabInv;
    SlotInRegion(a, b, k, i);
    SlotInRegion(a, b, k', i');
    if k < k' { RegionsOrdered(a.base, a.size, k + 1, k'); }
    else if k' < k { RegionsOrdered(a.base, a.size, k' + 1, k); }
    else {
      assert SlabOk(a, b, k);
      if i < i' { Within(i, i', a.slabs[k].objSize); }
      if i' < i { Within(i', i, a.slabs[k].objSize); }
    }
  }

  lemma LiveInCapacity(a: Alloc, b: Books, k: nat, i: nat)
    requires AllocInv(a, b) && k < SLABS && i in b.live[k]
    ensures i < a.slabs[k].capacity
  {
    hide SlabInv, RegionStart;
    assert SlabOk(a, b, k);
    if a.slabs[k].capacity > 0 { LiveSlot(a.slabs[k], b.live[k], b.chains[k], i); }
  }

  /** An untouched live slot keeps its address and owner. */
  lemma OwnerStays(a: Alloc, b: Books, a': Alloc, b': Books, k: nat, i: nat, p: nat, size: nat)
    requires AllocInv(a, b) && AllocInv(a', b') && a'.base == a.base && a'.size == a.size
    requires Owner(a, b, k, i, p, size) && i in b'.live[k]
    ensures Owner(a', b', k, i, p, size)
  {
    hide AllocInv, Serves;
    AddressStays(a, b, a', b', k, i);
  }

  lemma AddressStays(a: Alloc, b: Books, a': Alloc, b': Books, k: nat, i: nat)
    requires AllocInv(a, b) && AllocInv(a', b') && a'.base == a.base && a'.size == a.size
    requires k < SLABS && i in b.live[k] && i in b'.live[k]
    ensures |a.slabs| == |a'.slabs| == |b.live| == |b'.live| == SLABS
    ensures ObjAddr(a'.slabs[k], i) == ObjAddr(a.slabs[k], i)
  {
    hide SlabOk;
    LiveInCapacity(a, b, k, i);
    LiveInCapacity(a', b', k, i);
    SameAddress(a, b, a', b', k, i);
  }

  lemma GetMatches(c: Client, b: Books, size: nat) returns (b': Books)
    requires Matches(c, b) && size < TWO32
    ensures Matches(Step(c, Get(size)), b') && Step(c, Get(size)).a.base == c.a.base && Step(c, Get(size)).a.size == c.a.size
    ensures Allocate(c.a, size).1.Some? ==> Allocate(c.a, size).1.value !in c.held
  {
    hide SlabOk, Serves, Route;
    b' := b;
    if size > 0 {
      var k, i;
      b', k, i := AllocateKeeps(c.a, b, size);
      var (a', r) := Allocate(c.a, size);
      if r.Some? {
        NewBlock(c, b, size, a', b', k, i);
      } else {
        SameSlabs(c, b, a', b');
      }
    }
  }

  lemma SameSlabs(c: Client, b: Books, a': Alloc, b': Books)
    requires Matches(c, b) && AllocInv(a', b') && a'.slabs == c.a.slabs && b' == b
    ensures Matches(Client(a', c.held), b')
  {
    hide AllocInv, Serves;
    forall p | p in c.held ensures exists k: nat, i: nat :: Owner(a', b', k, i, p, c.held[p]) {
      var k: nat, i: nat :| Owner(c.a, b, k, i, p, c.held[p]);
      assert Owner(a', b', k, i, p, c.held[p]);
    }
  }

  lemma NewBlock(c: Client, b: Books, size: nat, a': Alloc, b': Books, k: nat, i: nat)
    requires Matches(c, b) && AllocInv(a', b') && a'.base == c.a.base && a'.size == c.a.size && 0 < size < TWO32
    requires k < SLABS && Serves(k, size) && a'.slabs[k].capacity == c.a.slabs[k].capacity > 0
    requires i !in b.live[k] && b'.live == b.live[k := b.live[k] + {i}]
    ensures var p := ObjAddr(c.a.slabs[k], i); Matches(Client(a', c.held[p := size]), b') && p !in c.held
  {
    hide AllocInv, Serves, SlabOk;
    InvShape(c.a, b);
    InvShape(a', b');
    SameAddress(c.a, b, a', b', k, i);
    var p := ObjAddr(c.a.slabs[k], i);
    assert Owner(a', b', k, i, p, size);
    LiveInCapacity(a', b', k, i);
    forall q | q in c.held ensures q != p && exists k': nat, i': nat :: Owner(a', b', k', i', q, c.held[q]) {
      var k': nat, i': nat :| Owner(c.a, b, k', i', q, c.held[q]);
      LiveInCapacity(c.a, b, k', i');
      if q == p { OneSlot(c.a, b, k, i, k', i'); }
      OwnerStays(c.a, b, a', b', k', i', q, c.held[q]);
    }
    forall k': nat, i': nat | k' < SLABS && i' in b'.live[k'] ensures ObjAddr(a'.slabs[k'], i') in c.held[p := size] {
      if k' != k || i' != i { AddressStays(c.a, b, a', b', k', i'); }
    }
  }

  lemma MatchesShape(c: Client, b: Books)
    requires Matches(c, b)
    ensures |c.a.slabs| == SLABS
    ensures forall p :: p in c.held ==> 0 < c.held[p] < TWO32
  {
    hide AllocInv, Serves;
    InvShape(c.a, b);
  }

  lemma InvShape(a: Alloc, b: Books)
    requires AllocInv(a, b)
    ensures |a.slabs| == SLABS && |b.live| == SLABS && a.base > 0
  {
  }

  lemma PutMatches(c: Client, b: Books, p: nat) returns (b': Books)
    requires Matches(c, b)
    ensures Matches(Step(c, Put(p)), b') && Step(c, Put(p)).a.base == c.a.base && Step(c, Put(p)).a.size == c.a.size
  {
    hide AllocInv, Serves, SlabOk, Free;
    InvShape(c.a, b);
    b' := b;
    if p in c.held {
      var k: nat, i: nat :| Owner(c.a, b, k, i, p, c.held[p]);
      b' := FreeKeeps(c.a, b, k, i, c.held[p]);
      var a' := Free(c.a, p, c.held[p]);
      FreeArena(c.a, p, c.held[p]);
      InvShape(a', b');
      forall q | q in c.held && q != p ensures exists k': nat, i': nat :: Owner(a', b', k', i', q, c.held[q]) {
        var k': nat, i': nat :| Owner(c.a, b, k', i', q, c.held[q]);
        OwnerStays(c.a, b, a', b', k', i', q, c.held[q]);
      }
      forall k': nat, i': nat | k' < SLABS && i' in b'.live[k'] ensures ObjAddr(a'.slabs[k'], i') in c.held - {p} {
        AddressStays(c.a, b, a', b', k', i');
        LiveInCapacity(c.a, b, k', i');
        LiveInCapacity(c.a, b, k, i);
        if ObjAddr(c.a.slabs[k'], i') == p { OneSlot(c.a, b, k, i, k', i'); }
      }
    }
  }

  lemma FreeArena(a: Alloc, p: nat, size: nat)
    requires |a.slabs| == SLABS && size < TWO32
    ensures Free(a, p, size).base == a.base && Free(a, p, size).size == a.size
    ensures Free(a, p, size).bytes == a.bytes && Free(a, p, size).fails == a.fails
  {
    hide SlabFree, BinIndex, BlockBase, BlockBytes;
  }

  /** Any run of requests and frees of held blocks, from initialisation on. */
  ghost predicate IsRun(run: seq<Client>, ops: seq<Op>, base: nat, size: nat) {
    && |run| == |ops| + 1 && base > 0 && 4096 <= size <= MAX_ARENA
    && AllocInit(base, size) == Some(run[0].a) && run[0].held == map[]
    && forall n :: 0 <= n < |ops| ==> Follows(run[n], ops[n], run[n + 1])
  }

  ghost predicate Follows(c: Client, op: Op, c': Client) {
    |c.a.slabs| == SLABS && (op.Get? ==> op.size < TWO32) && c' == Step(c, op)
  }

  lemma {:induction false} RunMatches(run: seq<Client>, ops: seq<Op>, base: nat, size: nat, n: nat) returns (b: Books)
    requires IsRun(run, ops, base, size) && n < |run|
    ensures Matches(run[n], b) && run[n].a.base == base && run[n].a.size == size
  {
    hide Matches, Step, AllocInit;
    if n == 0 {
      b := StartMatches(run[0], base, size);
    } else {
      b := RunMatches(run, ops, base, size, n - 1);
      assert Follows(run[n - 1], ops[n - 1], run[n]);
      match ops[n - 1] {
        case Get(s) => b := GetMatches(run[n - 1], b, s);
        case Put(p) => b := PutMatches(run[n - 1], b, p);
      }
    }
  }

  lemma StartMatches(c: Client, base: nat, size: nat) returns (b: Books)
    requires base > 0 && 4096 <= size <= MAX_ARENA && AllocInit(base, size) == Some(c.a) && c.held == map[]
    ensures Matches(c, b) && c.a.base == base && c.a.size == size
  {
    hide AllocInv, AllocInit, Owner;
    b := AllocInitInv(base, size);
    InvShape(c.a, b);
    InitArena(base, size);
  }

  lemma InitArena(base: nat, size: nat)
    ensures var r := AllocInit(base, size); r.Some? ==> r.value.base == base && r.value.size == size
  {
    hide SlabInit, Carve;
  }

  /** Held blocks are pairwise disjoint and lie in the arena before the bump region. */
  lemma HeldDisjoint(c: Client, b: Books, p: nat, q: nat)
    requires Matches(c, b) && p in c.held && q in c.held
    ensures p != q ==> p + c.held[p] <= q || q + c.held[q] <= p
    ensures c.a.base <= p && p + c.held[p] <= RegionStart(c.a.base, c.a.size, SLABS)
  {
    hide AllocInv, Serves, RegionStart;
    var k: nat, i: nat :| Owner(c.a, b, k, i, p, c.held[p]);
    var k': nat, i': nat :| Owner(c.a, b, k', i', q, c.held[q]);
    OwnerFits(c.a, b, k, i, p, c.held[p]);
    OwnerFits(c.a, b, k', i', q, c.held[q]);
    if p != q { ObjectsDisjoint(c.a, b, k, i, k', i'); }
    SlotInRegion(c.a, b, k, i);
    RegionsOrdered(c.a.base, c.a.size, 0, k);
    RegionsOrdered(c.a.base, c.a.size, k + 1, SLABS);
    RegionsTile(c.a.base, c.a.size, 0);
  }

  /**
   In every run of gmk_alloc and gmk_free, the blocks clients hold are pairwise disjoint and lie in the
   arena before the bump region, the live slots are exactly the held blocks, and a new block is
   never one that is held.
   */
  lemma HeldBlocksAreDisjoint(run: seq<Client>, ops: seq<Op>, base: nat, size: nat, n: nat, p: nat, q: nat)
    requires IsRun(run, ops, base, size) && n < |run| && p in run[n].held && q in run[n].held
    ensures var h := run[n].held;
      && (p != q ==> p + h[p] <= q || q + h[q] <= p)
      && base <= p && p + h[p] <= RegionStart(base, size, SLABS)
  {
    hide Matches, IsRun, RegionStart;
    var b := RunMatches(run, ops, base, size, n);
    HeldDisjoint(run[n], b, p, q);
  }

  /** A served payload block has room for header and data exactly when their sum does not wrap 32 bits. */
  lemma PayloadFitsIff(a: Alloc, b: Books, size: nat) returns (k: nat, i: nat)
    requires AllocInv(a, b) && 0 < size < TWO32 && PayloadAlloc(a, size).1.Some?
    ensures k < SLABS && i !in b.live[k] && PayloadAlloc(a, size).1.value == ObjAddr(a.slabs[k], i) + HEADER
    ensures HEADER + size <= ObjSizeOf(k) <==> HEADER + size < TWO32
  {
    hide AllocInv, BinIndex, Route, BinSize;
    var total := Wrap(HEADER + size);
    InvShape(a, b);
    assert total > 0;
    var b1;
    b1, k, i := AllocateKeeps(a, b, total);
    BinIndexIsLeastFit(total);
    BinSizesBounded(k);
  }

  lemma BinSizesBounded(k: nat)
    requires k < SLABS
    ensures ObjSizeOf(k) <= BLOCK_MAX
  {
    if k >= 2 { BinSizes(k - 2); }
  }

  /** The smallest bin of a fresh arena has room for objects. */
  lemma FirstBinHasRoom(base: nat, size: nat)
    requires base > 0 && 4096 <= size <= MAX_ARENA && AllocInit(base, size).Some?
    ensures |AllocInit(base, size).value.slabs| == SLABS && AllocInit(base, size).value.slabs[2].capacity > 0
  {
    hide SlabInit, Carve, SlabInv;
    var m := BlockBytes(size);
    var ptr := base + TaskBytes(size) + TraceBytes(size);
    BlockShare(size);
    FirstCarved(ptr, m);
    BinSizes(0);
    SlabInitInv(ptr, Share(m, BinWeight(0)), BinSize(0));
    InitSize(ptr, Share(m, BinWeight(0)), BinSize(0));
    assert AllocInit(base, size).value.slabs[2] == Carve(ptr, m, m, 0)[0];
  }

  lemma BlockShare(size: nat)
    requires 4096 <= size <= MAX_ARENA
    ensures BlockBytes(size) >= 1000 && 36 <= Share(BlockBytes(size), BinWeight(0)) <= BlockBytes(size) <= MAX_ARENA
    ensures BinSize(0) == 32 && Align8(32) == 32
  {
  }

  lemma FirstCarved(ptr: nat, m: nat)
    requires Share(m, BinWeight(0)) <= m
    ensures |Carve(ptr, m, m, 0)| == BINS && Carve(ptr, m, m, 0)[0] == BinSlab(ptr, Share(m, BinWeight(0)), 0)
  {
    CarveUnfold(ptr, m, m, 0, Share(m, BinWeight(0)));
  }

  /**
   The failing requests: on every fresh arena, a payload of more than 2^32 - 8 bytes is served, with an
   object of 32 bytes; at exactly 2^32 - 8 bytes the sum is 0 and the request is refused.
   */
  lemma WrappedPayloadIsServed(base: nat, size: nat, n: nat)
    requires base > 0 && 4096 <= size <= MAX_ARENA && TWO32 - HEADER <= n < TWO32 && AllocInit(base, size).Some?
    ensures |AllocInit(base, size).value.slabs| == SLABS
    ensures var a := AllocInit(base, size).value;
      PayloadAlloc(a, n).1 == if n == TWO32 - HEADER then None else Some(ObjAddr(a.slabs[2], 0) + HEADER)
    ensures ObjSizeOf(2) == 32
  {
    hide AllocInit, Allocate, BinSize, ObjAddr;
    var a := AllocInit(base, size).value;
    FirstBinHasRoom(base, size);
    BlockShare(4096);
    var total := (HEADER + n - TWO32) as nat;
    assert Wrap(HEADER + n) == total by { DivModUnique(HEADER + n, 1, TWO32, total); }
    if total > 0 { FirstOfFresh(base, size, a, total); } else { NothingForZero(a); }
  }

  lemma NothingForZero(a: Alloc)
    requires |a.slabs| == SLABS
    ensures Allocate(a, 0) == (a, None)
  {
  }

  lemma FirstOfFresh(base: nat, size: nat, a: Alloc, total: nat)
    requires base > 0 && 4096 <= size <= MAX_ARENA && AllocInit(base, size) == Some(a) && 0 < total <= BLOCK_MIN
    requires |a.slabs| == SLABS && a.slabs[2].capacity > 0
    ensures Allocate(a, total).1 == Some(ObjAddr(a.slabs[2], 0))
  {
    hide SlabInv, AllocInit;
    var b := AllocInitInv(base, size);
    assert SlabOk(a, b, 2);
    assert BinIndex(total) == 0;
    SlabShape(a.slabs[2], b.live[2], b.chains[2]);
    var b', k, i := AllocateKeeps(a, b, total);
    assert Serves(2, total) && |b.live[2]| == 0;
    FreshHead(base, size, a);
  }

  lemma FreshHead(base: nat, size: nat, a: Alloc)
    requires 4096 <= size <= MAX_ARENA && AllocInit(base, size) == Some(a) && |a.slabs| == SLABS && a.slabs[2].capacity > 0
    ensures a.slabs[2].freeHead == 0
  {
    hide SlabInv, Carve;
    var m := BlockBytes(size);
    var ptr := base + TaskBytes(size) + TraceBytes(size);
    BlockShare(size);
    FirstCarved(ptr, m);
    assert a.slabs[2] == Carve(ptr, m, m, 0)[0];
  }
}
