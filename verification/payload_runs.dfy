/**
 The kernel's runs on its own allocator: payloads come from gmk_payload_alloc and go back through
 gmk_payload_release (src/alloc.c), while other clients use the same arena.  That the address of a new
 payload is one not in use, which ChannelRuns asks of every allocation, is proved here.
 */
module PayloadRuns {
  import opened Words
  import opened Options
  import opened Sequences
  import opened Tasks
  import opened Scheduler
  import opened Channels
  import opened ChannelRuns
  import A = Arena
  import AR = ArenaRuns

  /** The kernel, the arena with all blocks in use, and the size in the header of every payload. */
  datatype Machine = Machine(w: World, c: AR.Client, sizes: map<nat, nat>)

  datatype Action =
    | Kernel(op: Op)          // AllocOp(p): gmk_payload_alloc returned p
    | OutOfMemory(size: nat)  // gmk_payload_alloc returned NULL
    | OtherGet(size: nat)     // gmk_alloc by another client
    | OtherPut(p: nat)        // gmk_free of a block that is no payload, with its size
    | Worker(id: nat, tick: nat, handler: Task -> Conduct)

  /** The block of a payload: header and data, their sum in 32 bits. */
  function Total(size: nat): nat {
    Wrap(A.HEADER + size)
  }

  /** The free at the end of a payload, with the size in its header. */
  function GiveBack(m: Machine, p: nat): Machine
    requires |m.c.a.slabs| == A.SLABS && p in m.sizes && p >= A.HEADER
  {
    m.(c := AR.Client(A.Free(m.c.a, p - A.HEADER, Total(m.sizes[p])), m.c.held - {p - A.HEADER}), sizes := m.sizes - {p})
  }

  /** The payloads of `order` are freed one after the other; the kernel's state is w. */
  ghost predicate Frees(m: Machine, order: seq<nat>, c: AR.Client, sizes: map<nat, nat>)
    decreases |order|
  {
    if order == [] then c == m.c && sizes == m.sizes
    else
      && |m.c.a.slabs| == A.SLABS && order[0] in m.sizes && order[0] >= A.HEADER
      && Frees(GiveBack(m, order[0]), order[1..], c, sizes)
  }

  /** A kernel operation other than an allocation: exactly the payloads it drops are freed, in some order. */
  ghost predicate Drops(m: Machine, w': World, m': Machine) {
    && m'.w == w'
    && exists order: seq<nat> :: NoDup(order) && Elems(order) == m.w.refs.Keys - w'.refs.Keys && Frees(m, order, m'.c, m'.sizes)
  }

  /** One kernel call.  Nothing is asked of an allocation: the arena decides. */
  ghost predicate Does(m: Machine, op: Op, m': Machine) {
    |m.w.sched.rq.queues| == 4 &&
    match op
    case AllocOp(p) => exists size: nat :: Allocates(m, size, p, m')
    case _ => Allowed(m.w, op) && Drops(m, Exec(m.w, op), m')
  }

  ghost predicate Allocates(m: Machine, size: nat, p: nat, m': Machine) {
    && |m.c.a.slabs| == A.SLABS && 0 < size < TWO32
    && A.PayloadAlloc(m.c.a, size).1 == Some(p)
    && m' == Machine(AllocPayload(m.w, p), AR.Step(m.c, AR.Get(Total(size))), m.sizes[p := size])
  }

  ghost predicate DoesAll(m: Machine, ops: seq<Op>, m': Machine)
    decreases |ops|
  {
    if ops == [] then m' == m else exists m1 :: Does(m, ops[0], m1) && DoesAll(m1, ops[1..], m')
  }

  /** What worker_dispatch_task does after the handler has returned. */
  function Ending(run: Conduct): Conduct {
    run.(calls := [])
  }

  ghost predicate Follows(m: Machine, a: Action, m': Machine) {
    && |m.w.sched.rq.queues| == 4 && |m.w.sched.rq.counters| == 4 && |m.c.a.slabs| == A.SLABS
    && match a
       case Kernel(op) => Does(m, op, m')
       case OutOfMemory(size) =>
         && size < TWO32 && A.PayloadAlloc(m.c.a, size).1.None?
         && m' == if size == 0 then m else m.(c := AR.Step(m.c, AR.Get(Total(size))))
       case OtherGet(size) => size < TWO32 && m' == m.(c := AR.Step(m.c, AR.Get(size)))
       case OtherPut(p) => p + A.HEADER !in m.sizes && m' == m.(c := AR.Step(m.c, AR.Put(p)))
       case Worker(id, tick, h) =>
         && id < |m.w.sched.lqs|
         && var (s, t) := Gather(m.w.sched, id);
            if t.Some? then Dispatches(m.(w := m.w.(sched := s)), t.value, h(t.value), m')
            else m' == m.(w := Work(m.w, id, tick, h))
  }

  ghost predicate Dispatches(m: Machine, t: Task, run: Conduct, m': Machine)
    requires |m.w.sched.rq.queues| == 4
  {
    && Sized(run.calls) && Held(run.left) == Held(t)
    && exists m1 :: DoesAll(m, run.calls, m1) && |m1.w.sched.rq.queues| == 4 && Drops(m1, Handle(m1.w, Ending(run)), m')
  }

  /** From initialisation on. */
  ghost predicate IsMachineRun(run: seq<Machine>, acts: seq<Action>, base: nat, size: nat) {
    && |run| == |acts| + 1 && base > 0 && 4096 <= size <= A.MAX_ARENA
    && (exists n :: 1 <= n <= MAX_WORKERS && run[0].w == InitWorld(n))
    && A.AllocInit(base, size) == Some(run[0].c.a) && run[0].c.held == map[] && run[0].sizes == map[]
    && forall k :: 0 <= k < |acts| ==> Follows(run[k], acts[k], run[k + 1])
  }

  // ---- the two books agree -------------------------------------------------------------------

  /** The payloads in use are exactly the blocks held for payloads, each with the size in its header. */
  ghost predicate Agree(m: Machine) {
    && (exists b :: AR.Matches(m.c, b))
    && m.sizes.Keys == m.w.refs.Keys
    && forall p :: p in m.sizes ==> Backed(m, p)
  }

  ghost predicate Backed(m: Machine, p: nat)
    requires p in m.sizes
  {
    p >= A.HEADER && p - A.HEADER in m.c.held && m.c.held[p - A.HEADER] == Total(m.sizes[p])
  }

  /** Freeing with the size in the header is freeing with the size that was requested. */
  lemma GiveBackKeeps(m: Machine, p: nat)
    requires Agree(m) && p in m.sizes
    ensures |m.c.a.slabs| == A.SLABS && p >= A.HEADER
    ensures var m' := GiveBack(m, p).(w := m.w.(refs := m.w.refs - {p})); Agree(m')
    ensures GiveBack(m, p).c == AR.Step(m.c, AR.Put(p - A.HEADER))
  {
    hide AR.Matches, A.Free;
    var b :| AR.Matches(m.c, b);
    AR.MatchesShape(m.c, b);
    assert Backed(m, p);
    var b' := AR.PutMatches(m.c, b, p - A.HEADER);
    var m' := GiveBack(m, p).(w := m.w.(refs := m.w.refs - {p}));
    forall q | q in m'.sizes ensures Backed(m', q) { assert Backed(m, q); }
  }

  lemma {:induction false} FreesKeep(m: Machine, order: seq<nat>, w': World, m': Machine)
    requires Agree(m) && NoDup(order) && (forall p :: p in order ==> p in m.sizes)
    requires Frees(m, order, m'.c, m'.sizes) && m'.w == w' && w'.refs.Keys == m.w.refs.Keys - Elems(order)
    ensures Agree(m')
    decreases |order|
  {
    hide AR.Matches, GiveBack;
    if order == [] {
      forall q | q in m'.sizes ensures Backed(m', q) { assert Backed(m, q); }
    } else {
      var p := order[0];
      GiveBackKeeps(m, p);
      var m1 := GiveBack(m, p).(w := m.w.(refs := m.w.refs - {p}));
      assert m1.c == GiveBack(m, p).c && m1.sizes == GiveBack(m, p).sizes;
      GivenSizes(m, p);
      SameFrees(GiveBack(m, p), m1, order[1..], m'.c, m'.sizes);
      FreesKeep(m1, order[1..], w', m');
    }
  }

  lemma GivenSizes(m: Machine, p: nat)
    requires |m.c.a.slabs| == A.SLABS && p in m.sizes && p >= A.HEADER
    ensures GiveBack(m, p).sizes == m.sizes - {p}
  {
  }

  /** Freeing does not look at the kernel. */
  lemma {:induction false} SameFrees(m: Machine, m1: Machine, order: seq<nat>, c: AR.Client, sizes: map<nat, nat>)
    requires m1.c == m.c && m1.sizes == m.sizes && Frees(m, order, c, sizes)
    ensures Frees(m1, order, c, sizes)
    decreases |order|
  {
    hide A.Free;
    if order != [] { SameFrees(GiveBack(m, order[0]), GiveBack(m1, order[0]), order[1..], c, sizes); }
  }

  lemma DropsKeep(m: Machine, w': World, m': Machine)
    requires Agree(m) && Drops(m, w', m') && w'.refs.Keys <= m.w.refs.Keys
    ensures Agree(m') && m'.w == w'
  {
    hide Agree;
    var order: seq<nat> :| NoDup(order) && Elems(order) == m.w.refs.Keys - w'.refs.Keys && Frees(m, order, m'.c, m'.sizes);
    SameKeys(m);
    assert forall p :: p in order ==> p in Elems(order);
    assert m.w.refs.Keys - Elems(order) == w'.refs.Keys;
    FreesKeep(m, order, w', m');
  }

  /** Whatever the kernel drops, the arena can take back. */
  lemma CanDrop(m: Machine, w': World) returns (m': Machine)
    requires Agree(m) && w'.refs.Keys <= m.w.refs.Keys
    ensures Drops(m, w', m')
  {
    hide Agree;
    SameKeys(m);
    var order := Listing(m.w.refs.Keys - w'.refs.Keys);
    assert forall p :: p in order ==> p in Elems(order);
    var c, sizes := CanFree(m, order);
    m' := Machine(w', c, sizes);
  }

  lemma {:induction false} Listing(s: set<nat>) returns (order: seq<nat>)
    ensures NoDup(order) && Elems(order) == s
    decreases |s|
  {
    order := [];
    if s != {} {
      var p :| p in s;
      var rest := Listing(s - {p});
      assert forall q :: q in rest ==> q in Elems(rest);
      order := [p] + rest;
      assert Elems(order) == {p} + Elems(rest);
    }
  }

  lemma {:induction false} CanFree(m: Machine, order: seq<nat>) returns (c: AR.Client, sizes: map<nat, nat>)
    requires Agree(m) && NoDup(order) && forall p :: p in order ==> p in m.sizes
    ensures Frees(m, order, c, sizes)
    decreases |order|
  {
    hide Agree, GiveBack;
    if order == [] {
      c, sizes := m.c, m.sizes;
    } else {
      var p := order[0];
      GiveBackKeeps(m, p);
      GivenSizes(m, p);
      var m1 := GiveBack(m, p).(w := m.w.(refs := m.w.refs - {p}));
      c, sizes := CanFree(m1, order[1..]);
      SameFrees(m1, GiveBack(m, p), order[1..], c, sizes);
    }
  }

  lemma SameKeys(m: Machine)
    requires Agree(m)
    ensures m.sizes.Keys == m.w.refs.Keys
  {
  }

  /** The arena hands out an address that no payload in use has. */
  lemma AllocKeeps(m: Machine, size: nat, p: nat, m': Machine)
    requires Agree(m) && Allocates(m, size, p, m')
    ensures p !in m.w.refs && Agree(m')
  {
    hide AR.Matches, A.Allocate;
    var b :| AR.Matches(m.c, b);
    var b' := AR.GetMatches(m.c, b, Total(size));
    forall q | q in m'.sizes ensures Backed(m', q) {
      if q != p { assert Backed(m, q); }
    }
  }

  // ---- only allocations bring payloads into use -----------------------------------------------

  lemma {:induction false} RetainsShrink(w: World, p: nat, n: nat)
    ensures Retains(w, p, n).refs.Keys <= w.refs.Keys
    decreases n
  {
    if n > 0 { RetainsShrink(Retain(w, p), p, n - 1); }
  }

  lemma {:induction false} CopiesShrink(w: World, t: Task, lossless: bool, subs: seq<Sub>)
    requires |w.sched.rq.queues| == 4
    ensures CopyAll(w, t, lossless, subs).refs.Keys <= w.refs.Keys
    decreases |subs|
  {
    hide Enqueue, HasRefcount;
    if subs != [] { CopiesShrink(if subs[0].active then CopyTo(w, t, lossless, subs[0]) else w, t, lossless, subs[1..]); }
  }

  lemma DeliverShrinks(w: World, ch: Chan, t: Task)
    requires |w.sched.rq.queues| == 4 && ch.subs != []
    ensures Deliver(w, ch, t).refs.Keys <= w.refs.Keys
  {
    hide Enqueue, CopyAll, Retains, Active, HasRefcount;
    var n := Active(ch.subs);
    if ch.mode.Fanout? && n > 0 {
      RetainsShrink(w, t.payload, n - 1);
      CopiesShrink(if HasRefcount(t) then Retains(w, t.payload, n - 1) else w, t, ch.lossless, ch.subs);
    }
  }

  lemma {:induction false} DrainShrinks(w: World, c: nat, n: nat)
    requires |w.sched.rq.queues| == 4 && c < |w.chans|
    ensures Drain(w, c, n).refs.Keys <= w.refs.Keys
    decreases n
  {
    hide Deliver;
    if n > 0 && w.chans[c].subs != [] && w.chans[c].ring != [] {
      var ch := w.chans[c];
      var w1 := SetRing(w, c, ch.ring[1..]);
      DeliverShrinks(w1, ch, ch.ring[0]);
      DrainShrinks(Deliver(w1, ch, ch.ring[0]), c, n - 1);
    }
  }

  lemma OwnKeepsRefs(w: World, t: Task)
    ensures Own(w, t).refs == w.refs && Leak(w, t).refs == w.refs
  {
  }

  lemma BufferShrinks(w: World, c: nat, t: Task, m: Task)
    requires |w.sched.rq.queues| == 4 && c < |w.chans|
    ensures Buffer(w, c, t, m).0.refs.Keys <= w.refs.Keys
  {
    hide Drain, Own, Leak;
    var ch := w.chans[c];
    if |ch.ring| < ch.cap {
      var w0 := SetRing(w, c, ch.ring + [m]);
      SameRings(w0, c, t);
      OwnKeepsRefs(w0, t);
      OwnKeepsRefs(Own(w0, t), t);
      DrainShrinks(if c == SYS_DROPPED then Leak(Own(w0, t), t) else Own(w0, t), c, 1);
    }
  }

  lemma EmitShrinks(w: World, c: nat, t: Task)
    requires |w.sched.rq.queues| == 4
    ensures Emit(w, c, t).0.refs.Keys <= w.refs.Keys
  {
    hide Enqueue, Buffer, Tagged, Threshold, Own;
    if c < |w.chans| {
      var ch := w.chans[c];
      var m := Tagged(t, c);
      BufferShrinks(w, c, t, m);
      if |ch.subs| == 1 {
        EnqueueShape(w.sched, m, ch.subs[0].worker);
        var s := Enqueue(w.sched, m, ch.subs[0].worker).0;
        OwnKeepsRefs(w.(sched := s), t);
        BufferShrinks(w.(sched := s), c, t, Numbered(w, m));
      }
    }
  }

  lemma ExecShrinks(w: World, op: Op)
    requires |w.sched.rq.queues| == 4 && Sized([op]) && !op.AllocOp?
    ensures Exec(w, op).refs.Keys <= w.refs.Keys
  {
    hide Emit, Drain, Perform, Takes, Own, NextPow2, IsPowerOfTwo;
    assert op in [op];
    match op
    case EmitOp(c, t) => EmitShrinks(w, c, t);
    case DrainOp(c, limit) => if c < |w.chans| { DrainShrinks(w, c, if limit == 0 then TWO32 - 1 else limit); }
    case ActOp(a) => OwnKeepsRefs(w.(sched := Perform(w.sched, a)), a.t);
    case _ =>
  }

  lemma EndingShrinks(w: World, run: Conduct)
    requires |w.sched.rq.queues| == 4 && Sized([])
    ensures Handle(w, Ending(run)).refs.Keys <= w.refs.Keys
  {
    hide Enqueue, HasRefcount, Release, Leak;
    assert ExecAll(w, []) == w;
    OwnKeepsRefs(w.(sched := Enqueue(w.sched, run.left, -1).0), run.left);
    ReleaseShrinks(w, run.left.payload);
  }

  lemma ReleaseShrinks(w: World, p: nat)
    ensures Release(w, p).refs.Keys <= w.refs.Keys
  {
  }

  // ---- runs ----------------------------------------------------------------------------------

  /** A call that the machine can make is one that ChannelRuns allows, whatever address an allocation returns. */
  lemma DoesKeeps(m: Machine, op: Op, m': Machine)
    requires Agree(m) && Does(m, op, m')
    ensures Sized([op]) && Allowed(m.w, op) && m'.w == Exec(m.w, op) && Agree(m')
  {
    hide Agree, Exec, Allocates, Drops, HasRefcount;
    assert Sized([op]);
    if op.AllocOp? {
      var size: nat :| Allocates(m, size, op.p, m');
      AllocKeeps(m, size, op.p, m');
      AllocWorld(m, size, op.p, m');
    } else {
      ExecShrinks(m.w, op);
      DropsKeep(m, Exec(m.w, op), m');
    }
  }

  lemma AllocWorld(m: Machine, size: nat, p: nat, m': Machine)
    requires Allocates(m, size, p, m') && |m.w.sched.rq.queues| == 4
    ensures m'.w == Exec(m.w, AllocOp(p))
  {
  }

  lemma {:induction false} DoesAllKeeps(m: Machine, ops: seq<Op>, m': Machine)
    requires Agree(m) && |m.w.sched.rq.queues| == 4 && Sized(ops) && DoesAll(m, ops, m')
    ensures AllAllowed(m.w, ops) && m'.w == ExecAll(m.w, ops) && Agree(m')
    decreases |ops|
  {
    hide Agree, Does, Exec, Allowed;
    if ops != [] {
      var m1 :| Does(m, ops[0], m1) && DoesAll(m1, ops[1..], m');
      DoesKeeps(m, ops[0], m1);
      assert ops[0] in ops;
      DoesAllKeeps(m1, ops[1..], m');
    }
  }

  /** A handler's ending starts where its calls left off. */
  lemma HandleInTwo(w: World, run: Conduct)
    requires |w.sched.rq.queues| == 4 && Sized(run.calls)
    ensures Sized([]) && Handle(w, run) == Handle(ExecAll(w, run.calls), Ending(run))
  {
    hide Enqueue, HasRefcount, Release, Leak, ChannelRuns.Exec;
    var w1 := ExecAll(w, run.calls);
    assert ExecAll(w1, []) == w1;
  }

  lemma DispatchKeeps(m: Machine, t: Task, run: Conduct, m': Machine)
    requires Agree(m) && |m.w.sched.rq.queues| == 4 && Dispatches(m, t, run, m')
    ensures Wellbehaved(m.w, t, run) && m'.w == Handle(m.w, run) && Agree(m')
  {
    hide Agree, Handle, DoesAll, AllAllowed, ExecAll, Drops, Held;
    var m1 :| DoesAll(m, run.calls, m1) && |m1.w.sched.rq.queues| == 4 && Drops(m1, Handle(m1.w, Ending(run)), m');
    DoesAllKeeps(m, run.calls, m1);
    HandleInTwo(m.w, run);
    EndingShrinks(m1.w, run);
    DropsKeep(m1, Handle(m1.w, Ending(run)), m');
  }

  /** The kernel's part of an action, if it has one. */
  function Event(a: Action): Option<ChannelRuns.Event> {
    match a
    case Kernel(op) => Some(Call(op))
    case Worker(id, tick, h) => Some(WorkOn(id, tick, h))
    case _ => None
  }

  /** The kernel's state may change in ways that concern no payload. */
  lemma OtherState(m: Machine, w': World)
    requires Agree(m) && w'.refs == m.w.refs
    ensures Agree(m.(w := w'))
  {
    hide AR.Matches;
    forall p | p in m.sizes ensures Backed(m.(w := w'), p) { assert Backed(m, p); }
  }

  /** Another client's request or free leaves every payload's block in place. */
  lemma OtherClient(m: Machine, op: AR.Op)
    requires Agree(m) && (op.Get? ==> op.size < TWO32) && (op.Put? ==> op.p + A.HEADER !in m.sizes)
    ensures |m.c.a.slabs| == A.SLABS && Agree(m.(c := AR.Step(m.c, op)))
  {
    hide AR.Matches, A.Free, A.Allocate;
    var b :| AR.Matches(m.c, b);
    AR.MatchesShape(m.c, b);
    var b' := b;
    match op {
      case Get(size) => b' := AR.GetMatches(m.c, b, size);
      case Put(p) => b' := AR.PutMatches(m.c, b, p);
    }
    var m' := m.(c := AR.Step(m.c, op));
    forall p | p in m'.sizes ensures Backed(m', p) { assert Backed(m, p); }
  }

  /** Every action is a step of ChannelRuns or no concern of the kernel's, and the two books go on agreeing. */
  lemma FollowsKeeps(m: Machine, a: Action, m': Machine)
    requires Agree(m) && Follows(m, a, m')
    ensures Agree(m')
    ensures match Event(a) case Some(e) => Step(m.w, e, m'.w) case None => m'.w == m.w
  {
    hide Agree, Does, Allowed, Exec, Gather, DrainEvq, Handle, Dispatches, Wellbehaved, A.Allocate;
    match a {
      case Kernel(op) => DoesKeeps(m, op, m');
      case OutOfMemory(size) => OtherClient(m, AR.Get(Total(size)));
      case OtherGet(size) => OtherClient(m, AR.Get(size));
      case OtherPut(p) => OtherClient(m, AR.Put(p));
      case Worker(id, tick, h) =>
        var (s, t) := Gather(m.w.sched, id);
        if t.Some? {
          OtherState(m, m.w.(sched := s));
          DispatchKeeps(m.(w := m.w.(sched := s)), t.value, h(t.value), m');
          SizedCalls(m.w.(sched := s), t.value, h(t.value));
        } else {
          OtherState(m, m'.w);
        }
    }
  }

  lemma SizedCalls(w: World, t: Task, run: Conduct)
    requires |w.sched.rq.queues| == 4 && Wellbehaved(w, t, run)
    ensures Sized(run.calls)
  {
  }

  lemma StartAgrees(m: Machine, base: nat, size: nat, n: nat)
    requires base > 0 && 4096 <= size <= A.MAX_ARENA && m.w == InitWorld(n)
    requires A.AllocInit(base, size) == Some(m.c.a) && m.c.held == map[] && m.sizes == map[]
    ensures Agree(m)
  {
    hide AR.Matches, A.AllocInit;
    var b := AR.StartMatches(m.c, base, size);
  }

  lemma {:induction false} MachineInv(run: seq<Machine>, acts: seq<Action>, base: nat, size: nat, k: nat)
    requires IsMachineRun(run, acts, base, size) && k < |run|
    ensures Agree(run[k]) && WorldInv(run[k].w) && Exact(run[k].w, multiset{})
  {
    hide Agree, WorldInv, Exact, Follows, InitWorld, A.AllocInit, Step;
    if k == 0 {
      var n :| 1 <= n <= MAX_WORKERS && run[0].w == InitWorld(n);
      StartAgrees(run[0], base, size, n);
      InitExact(n);
    } else {
      MachineInv(run, acts, base, size, k - 1);
      FollowsKeeps(run[k - 1], acts[k - 1], run[k]);
      if Event(acts[k - 1]).Some? { StepExact(run[k - 1].w, Event(acts[k - 1]).value, run[k].w); }
    }
  }

  /**
   In every run of the kernel on its allocator: the payloads in use are exactly the arena blocks held for
   payloads, each with the size its header says; no freed payload is touched, refcounts are exact, and the
   payload of every scheduled or buffered task is one of these blocks.
   */
  lemma PayloadsAreBlocks(run: seq<Machine>, acts: seq<Action>, base: nat, size: nat, k: nat, p: nat)
    requires IsMachineRun(run, acts, base, size) && k < |run|
    ensures var m := run[k];
      && (p in m.w.refs <==> p in m.sizes) && (p in m.sizes ==> Backed(m, p))
      && !m.w.fault && Count(m.w, p) == Rc(Counted(m.w), p) + m.w.held[p] + m.w.leaked[p]
      && (p in m.w.refs <==> Count(m.w, p) > 0)
      && m.w.allocs[p] == m.w.frees[p] + One(p in m.w.refs)
      && (forall t :: t in Counted(m.w) && Refers(t, p) ==> p in m.sizes)
  {
    hide AR.Matches, IsMachineRun, WorldInv, Counted, Rc;
    MachineInv(run, acts, base, size, k);
    ExactMeans(run[k].w, p);
  }

  /** Payloads in use do not share memory, and the data of each fits its block as long as 8 + size does not wrap. */
  lemma PayloadsAreDisjoint(run: seq<Machine>, acts: seq<Action>, base: nat, size: nat, k: nat, p: nat, q: nat)
    requires IsMachineRun(run, acts, base, size) && k < |run| && p in run[k].w.refs && q in run[k].w.refs
    ensures p in run[k].sizes && q in run[k].sizes
    ensures var z := run[k].sizes; p != q ==> p + Total(z[p]) <= q || q + Total(z[q]) <= p
    ensures var z := run[k].sizes; p != q && A.HEADER + z[p] < TWO32 && A.HEADER + z[q] < TWO32 ==> p + z[p] <= q || q + z[q] <= p
  {
    hide Agree, IsMachineRun, WorldInv, Exact, Total;
    MachineInv(run, acts, base, size, k);
    AgreeDisjoint(run[k], p, q);
    if A.HEADER + run[k].sizes[p] < TWO32 { Unwrapped(run[k].sizes[p]); }
    if A.HEADER + run[k].sizes[q] < TWO32 { Unwrapped(run[k].sizes[q]); }
  }

  lemma Unwrapped(size: nat)
    requires A.HEADER + size < TWO32
    ensures Total(size) == A.HEADER + size
  {
  }

  lemma AgreeDisjoint(m: Machine, p: nat, q: nat)
    requires Agree(m) && p in m.w.refs && q in m.w.refs
    ensures p in m.sizes && q in m.sizes
    ensures p != q ==> p + Total(m.sizes[p]) <= q || q + Total(m.sizes[q]) <= p
  {
    hide AR.Matches, Total;
    var b :| AR.Matches(m.c, b);
    assert Backed(m, p) && Backed(m, q);
    if p != q { AR.HeldDisjoint(m.c, b, p - A.HEADER, q - A.HEADER); }
  }
}
