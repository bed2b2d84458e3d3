/**
 The arena allocator as src/alloc.c and src/alloc_block.c update it, over live slabs: the task slab,
 the trace slab and the twelve bins.  Each method refines Arena.
 */
module ArenaAllocator {
  import opened Words
  import opened Options
  import opened Slabs
  import opened Arena

  lemma CarveOne(done: seq<Slab>, ptr: nat, remaining: nat, m: nat, i: nat, bytes: nat)
    requires i < BINS
    requires bytes == (var want := if i == BINS - 1 then remaining else Share(m, BinWeight(i)); if want > remaining then remaining else want)
    ensures bytes <= remaining
    ensures done + [BinSlab(ptr, bytes, i)] + Carve(ptr + bytes, remaining - bytes, m, i + 1) == done + Carve(ptr, remaining, m, i)
  {
    hide BinSlab, Share, BinWeight, Carve;
    CarveUnfold(ptr, remaining, m, i, bytes);
    Reassociate(done, BinSlab(ptr, bytes, i), Carve(ptr + bytes, remaining - bytes, m, i + 1));
  }

  lemma Reassociate<T>(a: seq<T>, x: T, b: seq<T>)
    ensures a + [x] + b == a + ([x] + b)
  {
  }

  lemma CarveDone(done: seq<Slab>, ptr: nat, remaining: nat, m: nat)
    ensures done + Carve(ptr, remaining, m, BINS) == done
  {
  }

  /** A slab or, for a bin without room, none. */
  ghost function ValueOf(s: SlabAllocator?): Slab
    reads s, if s == null then {} else {s.freeList}
  {
    if s == null then EmptySlab() else s.State()
  }

  ghost predicate Good(s: SlabAllocator?)
    reads s, if s == null then {} else {s.freeList}
  {
    s != null ==> s.Valid() && s.live == {}
  }

  /** One bin: a fresh slab, or none when not even one object fits. */
  method MakeBin(ptr: nat, bytes: nat, i: nat) returns (s: SlabAllocator?)
    requires i < BINS && bytes <= MAX_ARENA
    ensures Good(s) && ValueOf(s) == BinSlab(ptr, bytes, i) && (s != null ==> fresh(s) && fresh(s.freeList))
  {
    hide SlabInit, SlabInv, Align8, BinSize;
    BinSizes(i);
    SlabInitInv(ptr, bytes, BinSize(i));
    if bytes < Align8(BinSize(i)) + 4 { return null; }
    s := new SlabAllocator(ptr, bytes, BinSize(i));
  }

  /** The slabs of an arena, none sharing memory with another. */
  class Row {
    const slabs: seq<SlabAllocator?>

    ghost const repr: set<object>

    ghost predicate Shape() {
      && (forall k :: 0 <= k < |slabs| && slabs[k] != null ==> slabs[k] in repr && slabs[k].freeList in repr)
      && forall j, k :: 0 <= j < k < |slabs| && slabs[j] != null && slabs[k] != null ==>
        slabs[j] != slabs[k] && slabs[j].freeList != slabs[k].freeList
    }

    ghost predicate Valid()
      reads repr
    {
      Shape() && forall k :: 0 <= k < |slabs| && slabs[k] != null ==> slabs[k].Valid()
    }

    ghost function Values(): (r: seq<Slab>)
      requires Valid()
      reads repr
      ensures |r| == |slabs| && forall k :: 0 <= k < |slabs| ==> r[k] == ValueOf(slabs[k])
    {
      seq(|slabs|, k requires 0 <= k < |slabs| reads repr => ValueOf(slabs[k]))
    }

    ghost function Lives(): (r: seq<set<nat>>)
      requires Valid()
      reads repr
      ensures |r| == |slabs| && forall k :: 0 <= k < |slabs| ==> r[k] == if slabs[k] == null then {} else slabs[k].live
    {
      seq(|slabs|, k requires 0 <= k < |slabs| reads repr => if slabs[k] == null then {} else slabs[k].live)
    }

    ghost function Chains(): (r: seq<seq<int>>)
      requires Valid()
      reads repr
      ensures |r| == |slabs| && forall k :: 0 <= k < |slabs| ==> r[k] == if slabs[k] == null then [] else slabs[k].chain
    {
      seq(|slabs|, k requires 0 <= k < |slabs| reads repr => if slabs[k] == null then [] else slabs[k].chain)
    }

    constructor (slabs: seq<SlabAllocator?>, ghost repr: set<object>)
      requires forall k :: 0 <= k < |slabs| && slabs[k] != null ==> slabs[k] in repr && slabs[k].freeList in repr && slabs[k].Valid()
      requires forall j, k :: 0 <= j < k < |slabs| && slabs[j] != null && slabs[k] != null ==>
        slabs[j] != slabs[k] && slabs[j].freeList != slabs[k].freeList
      ensures this.slabs == slabs && this.repr == repr && Valid() && fresh(this)
    {
      this.slabs, this.repr := slabs, repr;
    }

    /** Every slab has its own free list and live slots. */
    lemma Sound(k: nat)
      requires Valid() && k < |slabs|
      ensures if slabs[k] == null then Values()[k].capacity == 0 && Lives()[k] == {} else SlabInv(Values()[k], Lives()[k], Chains()[k])
    {
      hide SlabInv;
      if slabs[k] != null { assert slabs[k].Valid(); }
    }

    /** gmk_slab_alloc on slab k, refused by a bin without room: a slot that was not live, or failure exactly when all are. */
    method Take(k: nat) returns (r: Option<nat>)
      requires Valid() && k < |slabs|
      modifies repr
      ensures Valid() && r.None? == (slabs[k] == null || |old(Lives())[k]| == slabs[k].capacity)
      ensures Values() == old(Values())[k := Values()[k]]
      ensures slabs[k] == null || old(Values())[k].capacity == 0 ==> Values() == old(Values())
      ensures slabs[k] != null ==> (Values()[k], r) == SlabAlloc(old(Values())[k])
      ensures r.None? ==> Lives() == old(Lives())
      ensures r.Some? ==> exists i: nat :: i !in old(Lives())[k] && Lives() == old(Lives())[k := old(Lives())[k] + {i}]
                            && r.value == ObjAddr(old(Values())[k], i)
    {
      hide SlabInv;
      var s := slabs[k];
      if s == null { return None; }
      assert s.Valid();
      SlabHasRoom(s.State(), s.live, s.chain);
      r := s.Alloc();
    }

    /** gmk_slab_free of live slot i on slab k: exactly that slot stops being live. */
    method Give(k: nat, p: nat, ghost i: nat)
      requires Valid() && k < |slabs| && i in Lives()[k] && p == ObjAddr(Values()[k], i)
      modifies repr
      ensures Valid() && Values() == old(Values())[k := SlabFree(old(Values())[k], p)]
      ensures Lives() == old(Lives())[k := old(Lives())[k] - {i}]
    {
      hide SlabInv, SlabFree, ObjAddr, SlotOf, InSlab;
      var s := slabs[k];
      assert s.Valid();
      LiveAddress(s.State(), s.live, s.chain, i);
      s.Free(p);
    }

    /** The address of a live object is one the slab takes back, for that very slot. */
    lemma LiveAddress(s: Slab, live: set<nat>, chain: seq<int>, i: nat)
      requires SlabInv(s, live, chain) && i in live
      ensures s.objSize > 0 && ObjAddr(s, i) >= s.base && InSlab(s, ObjAddr(s, i)) && SlotOf(s, ObjAddr(s, i)) == i
    {
      LiveSlot(s, live, chain, i);
      SlotOfAddr(s, i);
    }
  }

  /** The carving loop of gmk_block_init: twelve bins with memory of their own. */
  method CarveBlock(base: nat, memSize: nat) returns (bins: seq<SlabAllocator?>, ghost repr: set<object>)
    requires memSize <= MAX_ARENA
    ensures |bins| == BINS && fresh(repr)
    ensures forall k :: 0 <= k < BINS ==> Good(bins[k]) && ValueOf(bins[k]) == Carve(base, memSize, memSize, 0)[k]
    ensures forall k :: 0 <= k < BINS && bins[k] != null ==> bins[k] in repr && bins[k].freeList in repr
    ensures forall j, k :: 0 <= j < k < BINS && bins[j] != null && bins[k] != null ==> bins[j] != bins[k] && bins[j].freeList != bins[k].freeList
  {
    hide BinSlab, Share, Carve, BinWeight, SlabInv;
    bins, repr := [], {};
    ghost var done: seq<Slab> := [];
    var ptr: nat, remaining: nat := base, memSize;
    assert [] + Carve(ptr, remaining, memSize, 0) == Carve(base, memSize, memSize, 0);
    for i := 0 to BINS
      invariant |bins| == |done| == i && fresh(repr) && remaining <= memSize
      invariant done + Carve(ptr, remaining, memSize, i) == Carve(base, memSize, memSize, 0)
      invariant forall k :: 0 <= k < i ==> Good(bins[k]) && ValueOf(bins[k]) == done[k]
      invariant forall k :: 0 <= k < i && bins[k] != null ==> bins[k] in repr && bins[k].freeList in repr
      invariant forall j, k :: 0 <= j < k < i && bins[j] != null && bins[k] != null ==> bins[j] != bins[k] && bins[j].freeList != bins[k].freeList
    {
      var bytes := Share(memSize, BinWeight(i));
      if i == BINS - 1 { bytes := remaining; }
      if bytes > remaining { bytes := remaining; }
      CarveOne(done, ptr, remaining, memSize, i, bytes);
      var s := MakeBin(ptr, bytes, i);
      if s != null { repr := repr + {s, s.freeList}; }
      bins, done := bins + [s], done + [BinSlab(ptr, bytes, i)];
      ptr, remaining := ptr + bytes, remaining - bytes;
    }
    CarveDone(done, ptr, remaining, memSize);
  }

  /** The books may be read off the slabs themselves. */
  lemma OwnBooks(a: Alloc, b: Books, lives: seq<set<nat>>, chains: seq<seq<int>>)
    requires AllocInv(a, b) && |lives| == |chains| == SLABS
    requires forall k :: 0 <= k < SLABS ==>
      if a.slabs[k].capacity == 0 then lives[k] == {} else SlabInv(a.slabs[k], lives[k], chains[k])
    ensures AllocInv(a, Books(lives, chains))
  {
    hide SlabInv, RegionStart, ObjSizeOf;
    forall k | 0 <= k < SLABS ensures SlabOk(a, Books(lives, chains), k) { assert SlabOk(a, b, k); }
  }

  class Allocator {
    const base: nat
    const size: nat
    const row: Row
    var bytes: nat
    var fails: nat

    ghost predicate Sound()
      reads this, row.repr
    {
      this !in row.repr && row.Valid()
    }

    ghost function State(): Alloc
      requires Sound()
      reads this, row.repr
    {
      Alloc(base, size, row.Values(), bytes, fails)
    }

    /** The live slots of every slab, with its free list. */
    ghost function Held(): Books
      requires Sound()
      reads this, row.repr
    {
      Books(row.Lives(), row.Chains())
    }

    ghost predicate Valid()
      reads this, row.repr
    {
      Sound() && |row.slabs| == SLABS && AllocInv(State(), Held())
    }

    constructor (base: nat, size: nat, row: Row)
      requires row.Valid() && |row.slabs| == SLABS && base > 0
      requires AllocInv(Alloc(base, size, row.Values(), 0, 0), Books(row.Lives(), row.Chains()))
      ensures Valid() && fresh(this) && this.row == row
      ensures State() == Alloc(base, size, row.Values(), 0, 0) && Held().live == row.Lives()
    {
      hide AllocInv;
      this.base, this.size, this.row, bytes, fails := base, size, row, 0, 0;
    }

    /** The task and trace slabs at the front of the arena. */
    static method MakeFront(mem: nat, memSize: nat) returns (task: SlabAllocator, trace: SlabAllocator)
      requires mem > 0 && 4096 <= memSize <= MAX_ARENA
      ensures task.Valid() && fresh(task) && fresh(task.freeList) && task.live == {}
      ensures trace.Valid() && fresh(trace) && fresh(trace.freeList) && trace.live == {}
      ensures task != trace && task.freeList != trace.freeList
      ensures SlabInit(mem, TaskBytes(memSize), TASK_SIZE) == Some(task.State())
      ensures SlabInit(mem + TaskBytes(memSize), TraceBytes(memSize), TRACE_SIZE) == Some(trace.State())
    {
      hide SlabInit, SlabInv, TaskBytes, TraceBytes, Align8;
      FrontFits(memSize);
      task := new SlabAllocator(mem, TaskBytes(memSize), TASK_SIZE);
      trace := new SlabAllocator(mem + TaskBytes(memSize), TraceBytes(memSize), TRACE_SIZE);
    }

    /** The slabs of gmk_alloc_init. */
    static method MakeRow(mem: nat, memSize: nat) returns (row: Row)
      requires mem > 0 && 4096 <= memSize <= MAX_ARENA
      ensures row.Valid() && fresh(row) && fresh(row.repr) && |row.slabs| == SLABS
      ensures AllocInit(mem, memSize) == Some(Alloc(mem, memSize, row.Values(), 0, 0)) && row.Lives() == seq(SLABS, _ => {})
    {
      hide Carve, SlabInit, SlabInv, TaskBytes, TraceBytes, BlockBytes, Align8;
      var taskBytes, traceBytes := TaskBytes(memSize), TraceBytes(memSize);
      FrontFits(memSize);
      var task, trace := MakeFront(mem, memSize);
      var bins, repr := CarveBlock(mem + taskBytes + traceBytes, BlockBytes(memSize));
      ghost var all: set<object> := {task, task.freeList, trace, trace.freeList} + repr;
      var slabs: seq<SlabAllocator?> := [task, trace] + bins;
      row := new Row(slabs, all);
      var m := BlockBytes(memSize);
      assert row.Values() == [task.State(), trace.State()] + Carve(mem + taskBytes + traceBytes, m, m, 0);
      assert row.Lives() == seq(SLABS, _ => {});
    }

    /** gmk_alloc_init, once the arena memory has been obtained; below 4096 bytes it is refused. */
    static method Create(mem: nat, memSize: nat) returns (a: Allocator?)
      requires mem > 0 && memSize <= MAX_ARENA
      ensures a == null <==> memSize < 4096
      ensures a != null ==> a.Valid() && fresh(a) && fresh(a.row.repr) && AllocInit(mem, memSize) == Some(a.State())
      ensures a != null ==> a.Held().live == seq(SLABS, _ => {})
    {
      hide AllocInit, AllocInv, Row.Valid;
      if memSize < 4096 { return null; }
      var row := MakeRow(mem, memSize);
      ghost var b := AllocInitInv(mem, memSize);
      OwnRow(AllocInit(mem, memSize).value, b, row);
      a := new Allocator(mem, memSize, row);
    }

    static lemma OwnRow(a: Alloc, b: Books, row: Row)
      requires AllocInv(a, b) && row.Valid() && a.slabs == row.Values() && |row.slabs| == SLABS
      ensures AllocInv(a, Books(row.Lives(), row.Chains()))
    {
      hide SlabInv, AllocInv, Row.Valid;
      forall k: nat | k < SLABS
        ensures if a.slabs[k].capacity == 0 then row.Lives()[k] == {} else SlabInv(a.slabs[k], row.Lives()[k], row.Chains()[k])
      {
        row.Sound(k);
        if row.slabs[k] != null { SlabHasRoom(a.slabs[k], row.Lives()[k], row.Chains()[k]); }
      }
      OwnBooks(a, b, row.Lives(), row.Chains());
    }

    /** The two front slabs always have room for an object. */
    static lemma FrontFits(memSize: nat)
      requires 4096 <= memSize <= MAX_ARENA
      ensures TaskBytes(memSize) / 12 <= TWO31 && TraceBytes(memSize) / 12 <= TWO31 && BlockBytes(memSize) <= MAX_ARENA
      ensures TaskBytes(memSize) >= Align8(TASK_SIZE) + 4 && TraceBytes(memSize) >= Align8(TRACE_SIZE) + 4
    {
      assert Align8(TASK_SIZE) == 48 && Align8(TRACE_SIZE) == 32 by { AlignedMultiple(6); AlignedMultiple(4); }
    }

    /** gmk_slab_alloc on slab k, within the allocator. */
    method TakeSlab(k: nat) returns (r: Option<nat>)
      requires Sound() && |row.slabs| == SLABS && k < SLABS
      modifies row.repr
      ensures Sound() && |old(State()).slabs| == SLABS && (State(), r) == TakeFrom(old(State()), k)
      ensures r.None? ==> Held().live == old(Held()).live
      ensures r.Some? ==> exists i: nat :: i !in old(Held()).live[k] && Held().live == old(Held()).live[k := old(Held()).live[k] + {i}]
                            && r.value == ObjAddr(old(State()).slabs[k], i)
    {
      hide SlabInv, SlabAlloc, Row.Valid, ObjAddr;
      row.Sound(k);
      if row.slabs[k] != null { SlabHasRoom(row.Values()[k], row.Lives()[k], row.Chains()[k]); }
      r := row.Take(k);
    }

    /** The slot that was handed out was not live, and lies in a slab that serves the size. */
    ghost predicate Served(n: nat, r: Option<nat>, a: Alloc, before: seq<set<nat>>, after: seq<set<nat>>)
      requires n < TWO32
    {
      && |a.slabs| == |before| == SLABS && (r.None? ==> after == before)
      && (r.Some? ==> exists k: nat, i: nat :: k < SLABS && Serves(k, n) && i !in before[k]
                        && r.value == ObjAddr(a.slabs[k], i) && after == before[k := before[k] + {i}])
    }

    /** The routing of gmk_alloc: the task slab first for 48 bytes, then the bin of the size. */
    method RouteBySize(n: nat) returns (r: Option<nat>)
      requires Sound() && |row.slabs| == SLABS && 0 < n < TWO32
      modifies row.repr
      ensures Sound() && |old(State()).slabs| == SLABS && (State(), r) == Route(old(State()), n)
      ensures Served(n, r, old(State()), old(Held()).live, Held().live)
    {
      hide TakeFrom, BinIndex, Row.Valid, ObjAddr;
      BinIndexIsLeastFit(n);
      ghost var a := State();
      r := None;
      if n == TASK_SIZE {
        r := TakeSlab(TASK);
        if r.Some? { return r; }
        RefusedUnchanged(a, TASK);
      }
      if n <= BLOCK_MAX { r := TakeSlab(2 + BinIndex(n)); }
    }

    lemma RefusedUnchanged(a: Alloc, k: nat)
      requires k < |a.slabs| && TakeFrom(a, k).1.None?
      ensures TakeFrom(a, k).0 == a
    {
      if a.slabs[k].capacity > 0 { assert a.slabs[k := a.slabs[k]] == a.slabs; }
    }

    /** gmk_alloc: a slot that was not live, of a slab that serves the size; refused exactly when all of those are full. */
    method Obtain(n: nat) returns (r: Option<nat>)
      requires Valid() && n < TWO32
      modifies this, row.repr
      ensures Valid() && |old(State()).slabs| == SLABS && (State(), r) == Allocate(old(State()), n)
      ensures Served(n, r, old(State()), old(Held()).live, Held().live)
      ensures r.None? && n > 0 ==> forall j :: 0 <= j < SLABS && Serves(j, n) ==> |old(Held()).live[j]| == old(State()).slabs[j].capacity
    {
      hide TakeFrom, BinIndex, Row.Valid, AllocInv, ObjAddr, Route, Allocator.Served;
      InvRow();
      if n == 0 { NothingServed(State(), Held().live); return None; }
      ghost var b, k, i := AllocateKeeps(State(), Held(), n);
      r := RouteBySize(n);
      CountCall(r.Some?, n);
      OwnRow(State(), b, row);
    }

    lemma NothingServed(a: Alloc, lives: seq<set<nat>>)
      requires |a.slabs| == |lives| == SLABS
      ensures Served(0, None, a, lives, lives)
    {
    }

    /** The two counters. */
    method CountCall(ok: bool, n: nat)
      requires Sound()
      modifies this`bytes, this`fails
      ensures Sound() && Held() == old(Held())
      ensures State() == if ok then old(State()).(bytes := old(State()).bytes + n) else old(State()).(fails := old(State()).fails + 1)
    {
      hide Row.Valid;
      if ok { bytes := bytes + n; } else { fails := fails + 1; }
    }

    /** gmk_slab_free on slab k, within the allocator. */
    method GiveSlab(k: nat, p: nat, ghost i: nat)
      requires Sound() && |row.slabs| == SLABS && k < SLABS && i in Held().live[k] && p == ObjAddr(State().slabs[k], i)
      modifies row.repr
      ensures Sound() && |old(State()).slabs| == SLABS && State() == GiveTo(old(State()), k, p)
      ensures Held().live == old(Held()).live[k := old(Held()).live[k] - {i}]
    {
      hide Row.Valid, SlabFree, ObjAddr;
      row.Give(k, p, i);
    }

    /** gmk_free of a live object with the size it was requested with. */
    method Release(p: nat, n: nat, ghost k: nat, ghost i: nat)
      requires Valid() && 0 < n < TWO32 && k < SLABS && Serves(k, n) && i in Held().live[k] && p == ObjAddr(State().slabs[k], i)
      modifies this, row.repr
      ensures Valid() && |old(State()).slabs| == SLABS && State() == Free(old(State()), p, n)
      ensures Held().live == old(Held()).live[k := old(Held()).live[k] - {i}]
    {
      hide SlabFree, BinIndex, Row.Valid, AllocInv, ObjAddr, Free, GiveTo;
      InvRow();
      FrontSlabs(State(), Held());
      RoutedTo(State(), Held(), k, i, n);
      FreeFindsItsSlab(State(), Held(), k, i, n);
      ghost var b := FreeKeeps(State(), Held(), k, i, n);
      var task, trace := row.slabs[TASK], row.slabs[TRACE];
      if task.base <= p < task.base + task.total {
        GiveSlab(TASK, p, i);
      } else if trace.base <= p < trace.base + trace.total {
        assert false;
      } else {
        var start := base + TaskBytes(size) + TraceBytes(size);
        if start <= p < start + BlockBytes(size) {
          var idx := BinIndex(n);
          GiveSlab(2 + idx, p, i);
        }
      }
      OwnRow(State(), b, row);
    }

    /** The task and trace slabs exist. */
    lemma FrontSlabs(a: Alloc, b: Books)
      requires Valid() && a == State() && b == Held()
      ensures row.slabs[TASK] != null && row.slabs[TRACE] != null
      ensures a.slabs[TASK].base == row.slabs[TASK].base && a.slabs[TASK].total == row.slabs[TASK].total
      ensures a.slabs[TRACE].base == row.slabs[TRACE].base && a.slabs[TRACE].total == row.slabs[TRACE].total
    {
      hide SlabInv, RegionStart, ObjSizeOf;
      assert SlabOk(a, b, TASK) && SlabOk(a, b, TRACE);
    }

    lemma InvRow()
      requires Valid()
      ensures |row.slabs| == SLABS && |State().slabs| == SLABS && |Held().live| == SLABS
    {
      hide SlabOk;
    }
  }
}
