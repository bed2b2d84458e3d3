/**
 Runs of the kernel as tasks see it: any mix of kernel calls by producers and by handlers (allocate,
 retain, release, open, close, subscribe, emit, drain, submit, yield, post) and of worker iterations
 (src/chan.c, src/alloc.c, src/worker.c), from initialisation on.
 */
module ChannelRuns {
  import opened Words
  import opened Tasks
  import opened Scheduler
  import opened Channels
  import opened Options
  import opened Routes
  import opened Delivery
  import ReadyQueue
  import H = EventHeap

  const MAX_CHANNELS: nat := 256
  const CHAN_SLOTS: nat := 1024

  /** One call into the kernel, by a producer or by a handler. */
  datatype Op =
    | AllocOp(p: nat)                                        // gmk_payload_alloc returned p
    | RetainOp(p: nat)                                       // gmk_payload_retain
    | GiveUpOp(p: nat)                                       // gmk_payload_release of a reference the caller holds
    | OpenOp(taken: bool, mode: Mode, lossless: bool, slots: nat)   // taken: an open channel has this name
    | CloseOp(c: nat)
    | SubscribeOp(c: nat, moduleId: nat, worker: int)
    | EmitOp(c: nat, t: Task)
    | DrainOp(c: nat, limit: nat)
    | ActOp(a: Act)                                          // submit, yield or post

  /** gmk_chan_open; a capacity that does not fit 32 bits makes the ring's initialisation fail. */
  function Open(w: World, taken: bool, mode: Mode, lossless: bool, slots: nat): (r: (World, int))
    requires slots < TWO32
    ensures r.0.sched == w.sched
  {
    var n := if slots == 0 then CHAN_SLOTS else if IsPowerOfTwo(slots) then slots else NextPow2(slots);
    if |w.chans| >= MAX_CHANNELS then (w, CHAN_FULL)
    else if taken then (w, ERR_EXISTS)
    else if n == 0 then (w, ERR_NOMEM)
    else (w.(chans := w.chans + [Chan(mode, lossless, n, [], [], true)]), |w.chans|)
  }

  /** gmk_chan_close: refused for the two system channels; what the ring holds stays and may be drained. */
  function Close(w: World, c: nat): (r: World)
    ensures r.sched == w.sched && |r.chans| == |w.chans|
  {
    if c >= |w.chans| || c <= SYS_DROPPED then w else w.(chans := w.chans[c := w.chans[c].(open := false)])
  }

  /** An accepted task takes its caller's reference along. */
  function Act1(w: World, a: Act): (r: World)
    requires |w.sched.rq.queues| == 4
    ensures |r.sched.rq.queues| == 4
  {
    var w1 := w.(sched := Perform(w.sched, a));
    if Takes(w.sched, a) then Own(w1, a.t) else w1
  }

  function Exec(w: World, op: Op): (r: World)
    requires |w.sched.rq.queues| == 4 && (op.OpenOp? ==> op.slots < TWO32)
    ensures |r.sched.rq.queues| == 4
  {
    match op
    case AllocOp(p) => AllocPayload(w, p)
    case RetainOp(p) => var w1 := Retain(w, p); w1.(held := w1.held + multiset{p})
    case GiveUpOp(p) => Release(w.(held := w.held - multiset{p}), p)
    case OpenOp(taken, mode, lossless, slots) => Open(w, taken, mode, lossless, slots).0
    case CloseOp(c) => Close(w, c)
    case SubscribeOp(c, m, k) => Subscribe(w, c, m, k).0
    case EmitOp(c, t) => Emit(w, c, t).0
    case DrainOp(c, limit) => if c < |w.chans| then Drain(w, c, if limit == 0 then TWO32 - 1 else limit) else w
    case ActOp(a) => Act1(w, a)
  }

  /**
   A call by the rules of reference counting: what is emitted, submitted or released is held, what is
   retained is allocated.  Nobody subscribes to sys.dropped, and no full one-slot ring is pushed.
   */
  predicate Allowed(w: World, op: Op) {
    match op
    case AllocOp(p) => p !in w.refs
    case RetainOp(p) => p in w.refs
    case GiveUpOp(p) => p in w.held
    case OpenOp(_, _, _, slots) => slots < TWO32
    case CloseOp(_) => true
    case SubscribeOp(c, _, _) => c != SYS_DROPPED
    case EmitOp(c, t) => (HasRefcount(t) ==> t.payload in w.held) && RingMayTake(w, c, t)
    case DrainOp(_, _) => true
    case ActOp(a) => HasRefcount(a.t) ==> a.t.payload in w.held
  }

  /** Capacities are 32-bit numbers. */
  predicate Sized(ops: seq<Op>) {
    forall op :: op in ops && op.OpenOp? ==> op.slots < TWO32
  }

  function ExecAll(w: World, ops: seq<Op>): (r: World)
    requires |w.sched.rq.queues| == 4 && Sized(ops)
    ensures |r.sched.rq.queues| == 4
    decreases |ops|
  {
    if ops == [] then w else ExecAll(Exec(w, ops[0]), ops[1..])
  }

  ghost predicate AllAllowed(w: World, ops: seq<Op>)
    requires |w.sched.rq.queues| == 4
    decreases |ops|
  {
    ops != [] ==> Allowed(w, ops[0]) && AllAllowed(Exec(w, ops[0]), ops[1..])
  }

  /** A handler's run: its calls, its return code, and the task record as it leaves it. */
  datatype Conduct = Conduct(calls: seq<Op>, rc: int, left: Task)

  /** worker_dispatch_task: the handler's calls, then the retry or the release of the task's payload. */
  function Handle(w: World, run: Conduct): (r: World)
    requires |w.sched.rq.queues| == 4 && Sized(run.calls)
    ensures |r.sched.rq.queues| == 4
  {
    var w1 := ExecAll(w, run.calls);
    if run.rc == GMK_RETRY then
      var (s, ok) := Enqueue(w1.sched, run.left, -1);
      var w2 := w1.(sched := s);
      if ok then w2 else Leak(w2, run.left)
    else if HasRefcount(run.left) then Release(w1, run.left.payload) else w1
  }

  /** A handler that plays by the rules and leaves the task's payload and its flag in place. */
  ghost predicate Wellbehaved(w: World, t: Task, run: Conduct)
    requires |w.sched.rq.queues| == 4
  {
    Sized(run.calls) && AllAllowed(w, run.calls) && Held(run.left) == Held(t)
  }

  datatype Event =
    | Call(op: Op)
    | WorkOn(id: nat, tick: nat, handler: Task -> Conduct)

  /** One worker iteration. */
  function Work(w: World, id: nat, tick: nat, handler: Task -> Conduct): World
    requires id < |w.sched.lqs| && |w.sched.rq.queues| == 4 && |w.sched.rq.counters| == 4
    requires var t := Gather(w.sched, id).1; t.Some? ==> Sized(handler(t.value).calls)
  {
    var (s, t) := Gather(w.sched, id);
    if t.Some? then Handle(w.(sched := s), handler(t.value))
    else w.(sched := DrainEvq(s, id, tick, DRAIN_LIMIT).0)
  }

  /** gmk_sched_init and gmk_chan_reg_init: empty queues, sys.direct closed, sys.dropped open. */
  function InitWorld(n: nat): World {
    World(Sched(seq(n, _ => []), [], ReadyQueue.Rq([[], [], [], []], [0, 0, 0, 0]), [], 0, 0),
          [Chan(Fanout, false, 0, [], [], false), Chan(Fanout, false, CHAN_SLOTS, [], [], true)],
          map[], false, multiset{}, multiset{}, multiset{}, multiset{})
  }

  /** One event of a run. */
  ghost predicate Step(w: World, e: Event, w': World) {
    && |w.sched.rq.queues| == 4 && |w.sched.rq.counters| == 4
    && match e
       case Call(op) => Allowed(w, op) && w' == Exec(w, op)
       case WorkOn(id, tick, h) =>
         && id < |w.sched.lqs|
         && var (s, t) := Gather(w.sched, id);
            (t.Some? ==> Wellbehaved(w.(sched := s), t.value, h(t.value))) && w' == Work(w, id, tick, h)
  }

  ghost predicate IsRun(run: seq<World>, es: seq<Event>) {
    && |run| == |es| + 1 && (exists n :: 1 <= n <= MAX_WORKERS && run[0] == InitWorld(n))
    && forall k :: 0 <= k < |es| ==> Step(run[k], es[k], run[k + 1])
  }

  // ---- refcounts -----------------------------------------------------------------------

  lemma {:induction false} EmptyBags(qs: seq<seq<Task>>)
    requires forall i :: 0 <= i < |qs| ==> qs[i] == []
    ensures BagAll(qs) == multiset{}
    decreases |qs|
  {
    if qs != [] { EmptyBags(qs[1..]); }
  }

  lemma InitExact(n: nat)
    ensures WorldInv(InitWorld(n)) && Exact(InitWorld(n), multiset{}) && Counted(InitWorld(n)) == multiset{}
    ensures var w := InitWorld(n);
      && |w.sched.lqs| == n && |w.chans| == 2 && !w.chans[0].open && w.chans[1].open && w.chans[1].cap == 1024
      && (forall c :: 0 <= c < 2 ==> w.chans[c].mode.Fanout? && w.chans[c].ring == [] && w.chans[c].subs == [])
      && w.refs == map[] && w.held == multiset{} && w.leaked == multiset{}
  {
    hide BagAll, Counted, SchedInv;
    var w := InitWorld(n);
    NothingCounted(n);
    forall p: nat ensures Balanced(w, multiset{}, p) { }
  }

  lemma NothingCounted(n: nat)
    ensures SchedInv(InitWorld(n).sched) && Counted(InitWorld(n)) == multiset{}
  {
    hide BagAll;
    var w := InitWorld(n);
    EmptyBags(w.sched.lqs);
    EmptyBags(w.sched.rq.queues);
    EmptyBags(Rings(w.chans));
    assert w.sched.overflow == [] && EventTasks(w.sched.evq) == [];
  }

  lemma AllocExact(w: World, extra: multiset<nat>, p: nat)
    requires WorldInv(w) && Exact(w, extra) && p !in w.refs
    ensures WorldInv(AllocPayload(w, p)) && Exact(AllocPayload(w, p), extra)
  {
    hide Rc, Total, BagAll, SchedInv;
    var w' := AllocPayload(w, p);
    assert Counted(w') == Counted(w);
    forall q: nat ensures Balanced(w', extra, q) { assert Balanced(w, extra, q); }
  }

  lemma RetainHeldExact(w: World, extra: multiset<nat>, p: nat)
    requires WorldInv(w) && Exact(w, extra) && p in w.refs
    ensures WorldInv(Exec(w, RetainOp(p))) && Exact(Exec(w, RetainOp(p)), extra)
  {
    hide Rc, Total, BagAll, SchedInv;
    var w' := Exec(w, RetainOp(p));
    assert Counted(w') == Counted(w);
    forall q: nat ensures Balanced(w', extra, q) { assert Balanced(w, extra, q); }
  }

  lemma GiveUpExact(w: World, extra: multiset<nat>, p: nat)
    requires WorldInv(w) && Exact(w, extra) && p in w.held
    ensures var w' := Release(w.(held := w.held - multiset{p}), p); WorldInv(w') && Exact(w', extra)
  {
    hide Rc, Total, BagAll, SchedInv, Release;
    var w1 := w.(held := w.held - multiset{p});
    assert Counted(w1) == Counted(w);
    forall q: nat ensures Balanced(w1, extra + multiset{p}, q) { assert Balanced(w, extra, q); }
    ReleaseExact(w1, extra, p);
    ReleaseInv(w1, p);
  }

  lemma {:induction false} BagAllAppend(qs: seq<seq<Task>>, q: seq<Task>)
    ensures BagAll(qs + [q]) == BagAll(qs) + Bag(q)
    decreases |qs|
  {
    if qs == [] {
      assert (qs + [q])[1..] == [];
    } else {
      assert (qs + [q])[1..] == qs[1..] + [q];
      BagAllAppend(qs[1..], q);
    }
  }

  lemma OpenExact(w: World, extra: multiset<nat>, taken: bool, mode: Mode, lossless: bool, slots: nat)
    requires WorldInv(w) && Exact(w, extra) && slots < TWO32
    ensures var w' := Open(w, taken, mode, lossless, slots).0; WorldInv(w') && Exact(w', extra)
  {
    hide Exact, Total, SchedInv, NextPow2, IsPowerOfTwo, BagAll;
    var w' := Open(w, taken, mode, lossless, slots).0;
    if w' != w {
      assert Rings(w'.chans) == Rings(w.chans) + [[]];
      BagAllAppend(Rings(w.chans), []);
      assert Counted(w') == Counted(w) + multiset{};
      PlainExact(w, w', extra, multiset{});
    }
  }

  lemma CloseExact(w: World, extra: multiset<nat>, c: nat)
    requires WorldInv(w) && Exact(w, extra)
    ensures WorldInv(Close(w, c)) && Exact(Close(w, c), extra)
  {
    hide Exact, Total, BagAll, SchedInv;
    var w' := Close(w, c);
    assert Rings(w'.chans) == Rings(w.chans);
    assert Counted(w') == Counted(w) + multiset{};
    PlainExact(w, w', extra, multiset{});
  }

  lemma SubscribeExact(w: World, extra: multiset<nat>, c: nat, moduleId: nat, worker: int)
    requires WorldInv(w) && Exact(w, extra) && c != SYS_DROPPED
    ensures WorldInv(Subscribe(w, c, moduleId, worker).0) && Exact(Subscribe(w, c, moduleId, worker).0, extra)
  {
    hide Exact, Total, BagAll, SchedInv;
    var w' := Subscribe(w, c, moduleId, worker).0;
    assert Rings(w'.chans) == Rings(w.chans);
    assert Counted(w') == Counted(w) + multiset{};
    PlainExact(w, w', extra, multiset{});
  }

  lemma TakesTotal(s: Sched, a: Act)
    requires SchedInv(s)
    ensures var s' := Perform(s, a); SchedInv(s') && Total(s') == Total(s) + When(Takes(s, a), Stored(a))
  {
    hide Total, Enqueue, Yield, Post, SchedInv;
    match a
    case Submit(t, w) => EnqueueConserves(s, t, w);
    case YieldTask(t, w, m) => YieldConserves(s, t, w, m);
    case PostEvent(t) => PostConserves(s, t);
  }

  lemma StoredHeld(a: Act)
    ensures Held(Stored(a)) == Held(a.t)
  {
  }

  /** The scheduler takes a task in: its caller's reference goes along. */
  lemma TakenExact(w: World, extra: multiset<nat>, t: Task, s: Sched, stored: Task)
    requires WorldInv(w) && Exact(w, extra) && (HasRefcount(t) ==> t.payload in w.held) && Held(stored) == Held(t)
    requires SchedInv(s) && Total(s) == Total(w.sched) + multiset{Unserial(stored)}
    ensures WorldInv(Own(w.(sched := s), t)) && Exact(Own(w.(sched := s), t), extra)
  {
    hide Exact, Total, BagAll, SchedInv, Rings, HasRefcount, Held;
    OwnExact(w, extra, t);
    var w1 := Own(w, t);
    var w2 := w1.(sched := s);
    OwnFields(w, t, s);
    assert Counted(w2) == Counted(w1) + multiset{Unserial(stored)};
    EnterExact(w1, w2, extra, stored);
  }

  lemma OwnFields(w: World, t: Task, s: Sched)
    ensures var w1 := Own(w, t); Own(w.(sched := s), t) == w1.(sched := s) && w1.sched == w.sched && w1.chans == w.chans
  {
  }

  lemma ActExact(w: World, extra: multiset<nat>, a: Act)
    requires WorldInv(w) && Exact(w, extra) && (HasRefcount(a.t) ==> a.t.payload in w.held)
    ensures WorldInv(Act1(w, a)) && Exact(Act1(w, a), extra)
  {
    hide Exact, Total, BagAll, SchedInv, Perform, Takes, Rings, Stored, HasRefcount, Own, Held;
    TakesTotal(w.sched, a);
    StoredHeld(a);
    var s := Perform(w.sched, a);
    if Takes(w.sched, a) {
      TakenExact(w, extra, a.t, s, Stored(a));
    } else {
      assert Counted(w.(sched := s)) == Counted(w) + multiset{};
      PlainExact(w, w.(sched := s), extra, multiset{});
    }
  }

  /** Every call keeps every refcount exact, whatever references the code around it has in hand. */
  lemma ExecExact(w: World, extra: multiset<nat>, op: Op)
    requires WorldInv(w) && Exact(w, extra) && Allowed(w, op)
    ensures WorldInv(Exec(w, op)) && Exact(Exec(w, op), extra)
  {
    hide Exact, WorldInv, AllocPayload, Release, Open, Close, Subscribe, Emit, Drain, Act1, HasRefcount;
    match op
    case AllocOp(p) => AllocExact(w, extra, p);
    case RetainOp(p) => RetainHeldExact(w, extra, p);
    case GiveUpOp(p) => GiveUpExact(w, extra, p);
    case OpenOp(taken, mode, lossless, slots) => OpenExact(w, extra, taken, mode, lossless, slots);
    case CloseOp(c) => CloseExact(w, extra, c);
    case SubscribeOp(c, m, k) => SubscribeExact(w, extra, c, m, k);
    case EmitOp(c, t) => EmitExact(w, extra, c, t);
    case DrainOp(c, limit) => if c < |w.chans| { DrainExact(w, extra, c, if limit == 0 then TWO32 - 1 else limit); }
    case ActOp(a) => ActExact(w, extra, a);
  }

  lemma {:induction false} ExecAllExact(w: World, extra: multiset<nat>, ops: seq<Op>)
    requires WorldInv(w) && Exact(w, extra) && Sized(ops) && AllAllowed(w, ops)
    ensures WorldInv(ExecAll(w, ops)) && Exact(ExecAll(w, ops), extra)
    decreases |ops|
  {
    hide Exact, WorldInv, Exec, Allowed;
    if ops != [] {
      ExecExact(w, extra, ops[0]);
      ExecAllExact(Exec(w, ops[0]), extra, ops[1..]);
    }
  }

  /** A dispatched task's reference is released, or kept by an accepted retry, whatever its handler emitted or submitted. */
  lemma HandleExact(w: World, t: Task, run: Conduct)
    requires WorldInv(w) && Exact(w, Held(t)) && Wellbehaved(w, t, run)
    ensures WorldInv(Handle(w, run)) && Exact(Handle(w, run), multiset{})
  {
    hide Exact, Total, BagAll, SchedInv, ExecAll, AllAllowed, Enqueue, Release;
    var none: multiset<nat> := multiset{};
    ExecAllExact(w, Held(t), run.calls);
    var w1 := ExecAll(w, run.calls);
    assert none + Held(t) == Held(t);
    if run.rc == GMK_RETRY {
      EnqueueExact(w1, none, run.left, -1);
      var (s, ok) := Enqueue(w1.sched, run.left, -1);
      if !ok { LeakExact(w1.(sched := s), none, run.left); }
    } else if HasRefcount(run.left) {
      ReleaseExact(w1, none, run.left.payload);
      ReleaseInv(w1, run.left.payload);
    }
  }

  lemma GatherExact(w: World, id: nat)
    requires WorldInv(w) && Exact(w, multiset{}) && id < |w.sched.lqs|
    ensures var (s, t) := Gather(w.sched, id); var w1 := w.(sched := s);
      WorldInv(w1) && Exact(w1, if t.Some? then Held(t.value) else multiset{})
  {
    hide Exact, Total, BagAll, SchedInv, Gather, Held;
    var none: multiset<nat> := multiset{};
    GatherTakesOne(w.sched, id);
    var (s, t) := Gather(w.sched, id);
    var w1 := w.(sched := s);
    if t.Some? {
      assert Counted(w1) == Counted(w) - multiset{Unserial(t.value)};
      LeaveExact(w, w1, none, t.value);
      assert none + Held(t.value) == Held(t.value);
    } else {
      assert Counted(w1) == Counted(w) + multiset{};
      PlainExact(w, w1, none, multiset{});
    }
  }

  lemma EventsExact(w: World, id: nat, tick: nat)
    requires WorldInv(w) && Exact(w, multiset{}) && id < |w.sched.lqs| && |w.sched.lqs[id]| + DRAIN_LIMIT <= LQ_WATERMARK
    ensures var w2 := w.(sched := DrainEvq(w.sched, id, tick, DRAIN_LIMIT).0); WorldInv(w2) && Exact(w2, multiset{})
  {
    hide Exact, Total, BagAll, SchedInv, DrainEvq;
    var none: multiset<nat> := multiset{};
    DrainConserves(w.sched, id, tick, DRAIN_LIMIT);
    var w2 := w.(sched := DrainEvq(w.sched, id, tick, DRAIN_LIMIT).0);
    assert Counted(w2) == Counted(w) + multiset{};
    PlainExact(w, w2, none, multiset{});
  }

  lemma StepExact(w: World, e: Event, w': World)
    requires WorldInv(w) && Exact(w, multiset{}) && Step(w, e, w')
    ensures WorldInv(w') && Exact(w', multiset{})
  {
    hide Exact, WorldInv, Gather, DrainEvq, Handle, Exec, Allowed, Wellbehaved;
    match e {
      case Call(op) => ExecExact(w, multiset{}, op);
      case WorkOn(id, tick, h) =>
        GatherExact(w, id);
        var (s, t) := Gather(w.sched, id);
        if t.Some? {
          HandleExact(w.(sched := s), t.value, h(t.value));
        } else {
          GatherNone(w, id);
          EventsExact(w.(sched := s), id, tick);
        }
    }
  }

  lemma GatherNone(w: World, id: nat)
    requires WorldInv(w) && id < |w.sched.lqs|
    ensures var (s, t) := Gather(w.sched, id); t.None? ==> s.lqs == w.sched.lqs && s.lqs[id] == []
  {
    hide Total, BagAll, SchedInv, Gather;
    GatherTakesOne(w.sched, id);
  }

  lemma {:induction false} RunExact(run: seq<World>, es: seq<Event>, k: nat)
    requires IsRun(run, es) && k < |run|
    ensures WorldInv(run[k]) && Exact(run[k], multiset{})
  {
    hide Exact, WorldInv, Step, InitWorld;
    if k == 0 {
      var n :| 1 <= n <= MAX_WORKERS && run[0] == InitWorld(n);
      InitExact(n);
    } else {
      RunExact(run, es, k - 1);
      StepExact(run[k - 1], es[k - 1], run[k]);
    }
  }

  lemma ExactMeans(w: World, p: nat)
    requires WorldInv(w) && Exact(w, multiset{})
    ensures !w.fault
    ensures Count(w, p) == Rc(Counted(w), p) + w.held[p] + w.leaked[p]
    ensures p in w.refs <==> Count(w, p) > 0
    ensures forall t :: t in Counted(w) && Refers(t, p) ==> p in w.refs
    ensures w.allocs[p] == w.frees[p] + One(p in w.refs)
  {
    hide SchedInv, Total, BagAll;
    assert Balanced(w, multiset{}, p);
    forall t | t in Counted(w) && Refers(t, p) ensures p in w.refs { RcWithout(Counted(w), t, p); }
  }

  /**
   In every run, no payload is touched after it was freed, the refcount is exactly the number of
   scheduled copies, buffered messages, held and lost references, the payload of every scheduled or
   buffered task is allocated, and each allocation is freed at most once.
   */
  lemma RefcountsAreExact(run: seq<World>, es: seq<Event>, k: nat, p: nat)
    requires IsRun(run, es) && k < |run|
    ensures !run[k].fault
    ensures Count(run[k], p) == Rc(Counted(run[k]), p) + run[k].held[p] + run[k].leaked[p]
    ensures p in run[k].refs <==> Count(run[k], p) > 0
    ensures forall t :: t in Counted(run[k]) && Refers(t, p) ==> p in run[k].refs
    ensures run[k].allocs[p] == run[k].frees[p] + One(p in run[k].refs)
  {
    hide IsRun, WorldInv, Exact, Rc, Counted;
    RunExact(run, es, k);
    ExactMeans(run[k], p);
  }

  // ---- lost references -------------------------------------------------------------------

  /** What delivering t loses (DeliverLeaksIff). */
  function DeliveryLoss(s: Sched, ch: Chan, t: Task): multiset<nat>
    requires |s.rq.queues| == 4 && ch.subs != []
  {
    var lost := if ch.mode.P2P? then !ch.subs[0].active || NoQueueTakes(s, t, ch.subs[0].worker) else Active(ch.subs) == 0;
    if lost then Held(t) else multiset{}
  }

  function DrainLoss(w: World, c: nat, n: nat): multiset<nat>
    requires |w.sched.rq.queues| == 4 && c < |w.chans|
    decreases n
  {
    if n == 0 || w.chans[c].subs == [] || w.chans[c].ring == [] then multiset{}
    else
      var ch := w.chans[c];
      var w1 := SetRing(w, c, ch.ring[1..]);
      DeliveryLoss(w.sched, ch, ch.ring[0]) + DrainLoss(Deliver(w1, ch, ch.ring[0]), c, n - 1)
  }

  /** Buffering loses the reference of an accepted message to sys.dropped, and what the immediate drain loses. */
  function BufferLoss(w: World, c: nat, t: Task, m: Task): multiset<nat>
    requires |w.sched.rq.queues| == 4 && c < |w.chans|
  {
    var ch := w.chans[c];
    if |ch.ring| >= ch.cap then multiset{}
    else
      var w1 := Own(SetRing(w, c, ch.ring + [m]), t);
      var w2 := if c == SYS_DROPPED then Leak(w1, t) else w1;
      (if c == SYS_DROPPED then Held(t) else multiset{}) + (if ch.mode.P2P? then DrainLoss(w2, c, 1) else multiset{})
  }

  function EmitLoss(w: World, c: nat, t: Task): multiset<nat>
    requires |w.sched.rq.queues| == 4
  {
    if c >= |w.chans| || !w.chans[c].open then multiset{}
    else
      var ch := w.chans[c];
      var m := Tagged(t, c);
      if |ch.ring| >= Threshold(ch.cap) && Priority(m) != 0 then multiset{}
      else if ch.mode.P2P? && |ch.subs| == 1 && ch.subs[0].active then
        if NoQueueTakes(w.sched, m, ch.subs[0].worker)
        then BufferLoss(w.(sched := Enqueue(w.sched, m, ch.subs[0].worker).0), c, t, Numbered(w, m)) else multiset{}
      else BufferLoss(w, c, t, m)
  }

  function Loss(w: World, op: Op): multiset<nat>
    requires |w.sched.rq.queues| == 4
  {
    match op
    case EmitOp(c, t) => EmitLoss(w, c, t)
    case DrainOp(c, limit) => if c < |w.chans| then DrainLoss(w, c, if limit == 0 then TWO32 - 1 else limit) else multiset{}
    case _ => multiset{}
  }

  function AllLoss(w: World, ops: seq<Op>): multiset<nat>
    requires |w.sched.rq.queues| == 4 && Sized(ops)
    decreases |ops|
  {
    if ops == [] then multiset{} else Loss(w, ops[0]) + AllLoss(Exec(w, ops[0]), ops[1..])
  }

  /** A handler's calls lose what they lose; besides, a retry that finds the RQ of its priority full. */
  function HandleLoss(w: World, run: Conduct): multiset<nat>
    requires |w.sched.rq.queues| == 4 && Sized(run.calls)
  {
    var retried := run.rc == GMK_RETRY && NoQueueTakes(ExecAll(w, run.calls).sched, run.left, -1);
    AllLoss(w, run.calls) + (if retried then Held(run.left) else multiset{})
  }

  function EventLoss(w: World, e: Event): multiset<nat>
    requires |w.sched.rq.queues| == 4 && |w.sched.rq.counters| == 4
  {
    match e
    case Call(op) => Loss(w, op)
    case WorkOn(id, tick, h) =>
      if id >= |w.sched.lqs| then multiset{}
      else
        var (s, t) := Gather(w.sched, id);
        if t.Some? && Sized(h(t.value).calls) then HandleLoss(w.(sched := s), h(t.value)) else multiset{}
  }

  lemma RefusedIff(s: Sched, t: Task, worker: int)
    requires |s.rq.queues| == 4
    ensures !Enqueue(s, t, worker).1 <==> NoQueueTakes(s, t, worker)
  {
  }

  lemma {:induction false} DrainLeaks(w: World, c: nat, n: nat)
    requires |w.sched.rq.queues| == 4 && c < |w.chans|
    ensures Drain(w, c, n).leaked == w.leaked + DrainLoss(w, c, n)
    decreases n
  {
    hide Deliver, DeliveryLoss;
    if n > 0 && w.chans[c].subs != [] && w.chans[c].ring != [] {
      var ch := w.chans[c];
      var w1 := SetRing(w, c, ch.ring[1..]);
      DeliveryLeaks(w1, ch, ch.ring[0]);
      DrainLeaks(Deliver(w1, ch, ch.ring[0]), c, n - 1);
    }
  }

  lemma DeliveryLeaks(w: World, ch: Chan, t: Task)
    requires |w.sched.rq.queues| == 4 && ch.subs != []
    ensures Deliver(w, ch, t).leaked == w.leaked + DeliveryLoss(w.sched, ch, t)
  {
    hide Deliver, NoQueueTakes, Held, Active;
    DeliverLeaksIff(w, ch, t);
  }

  lemma OwnLeaksNothing(w: World, t: Task)
    ensures Own(w, t).leaked == w.leaked && Leak(w, t).leaked == w.leaked + Held(t)
  {
  }

  lemma BufferLeaks(w: World, c: nat, t: Task, m: Task)
    requires |w.sched.rq.queues| == 4 && c < |w.chans|
    ensures Buffer(w, c, t, m).0.leaked == w.leaked + BufferLoss(w, c, t, m)
  {
    hide Drain, DrainLoss, Own, Leak, Held;
    var ch := w.chans[c];
    if |ch.ring| < ch.cap {
      var w0 := SetRing(w, c, ch.ring + [m]);
      OwnLeaksNothing(w0, t);
      OwnLeaksNothing(Own(w0, t), t);
      var w2 := if c == SYS_DROPPED then Leak(Own(w0, t), t) else Own(w0, t);
      SameRings(w0, c, t);
      DrainLeaks(w2, c, 1);
    }
  }

  lemma EmitLeaks(w: World, c: nat, t: Task)
    requires |w.sched.rq.queues| == 4
    ensures Emit(w, c, t).0.leaked == w.leaked + EmitLoss(w, c, t)
  {
    hide Enqueue, Buffer, BufferLoss, NoQueueTakes, Tagged, Threshold, Own;
    if c < |w.chans| {
      var ch := w.chans[c];
      var m := Tagged(t, c);
      BufferLeaks(w, c, t, m);
      if |ch.subs| == 1 {
        RefusedIff(w.sched, m, ch.subs[0].worker);
        var s := Enqueue(w.sched, m, ch.subs[0].worker).0;
        OwnLeaksNothing(w.(sched := s), t);
        EnqueueShape(w.sched, m, ch.subs[0].worker);
        BufferLeaks(w.(sched := s), c, t, Numbered(w, m));
      }
    }
  }

  lemma ExecLeaks(w: World, op: Op)
    requires |w.sched.rq.queues| == 4 && Sized([op])
    ensures Exec(w, op).leaked == w.leaked + Loss(w, op)
  {
    hide Drain, DrainLoss, Emit, EmitLoss, Perform, Takes, Own, Leak, Open, Subscribe, HasRefcount;
    assert op in [op];
    match op
    case EmitOp(c, t) => EmitLeaks(w, c, t);
    case DrainOp(c, limit) => if c < |w.chans| { DrainLeaks(w, c, if limit == 0 then TWO32 - 1 else limit); }
    case ActOp(a) => OwnLeaksNothing(w.(sched := Perform(w.sched, a)), a.t);
    case OpenOp(taken, mode, lossless, slots) => OpenLeaksNothing(w, taken, mode, lossless, slots);
    case SubscribeOp(c, m, k) => SubscribeLeaksNothing(w, c, m, k);
    case _ =>
  }

  lemma OpenLeaksNothing(w: World, taken: bool, mode: Mode, lossless: bool, slots: nat)
    requires slots < TWO32
    ensures Open(w, taken, mode, lossless, slots).0.leaked == w.leaked
  {
    hide NextPow2, IsPowerOfTwo;
  }

  lemma SubscribeLeaksNothing(w: World, c: nat, m: nat, k: int)
    ensures Subscribe(w, c, m, k).0.leaked == w.leaked
  {
  }

  lemma {:induction false} ExecAllLeaks(w: World, ops: seq<Op>)
    requires |w.sched.rq.queues| == 4 && Sized(ops)
    ensures ExecAll(w, ops).leaked == w.leaked + AllLoss(w, ops)
    decreases |ops|
  {
    hide Exec, Loss;
    if ops != [] {
      assert ops[0] in ops;
      ExecLeaks(w, ops[0]);
      ExecAllLeaks(Exec(w, ops[0]), ops[1..]);
    }
  }

  lemma HandleLeaks(w: World, run: Conduct)
    requires |w.sched.rq.queues| == 4 && Sized(run.calls)
    ensures Handle(w, run).leaked == w.leaked + HandleLoss(w, run)
  {
    hide ExecAll, AllLoss, Enqueue, NoQueueTakes, Held;
    ExecAllLeaks(w, run.calls);
    var w1 := ExecAll(w, run.calls);
    RefusedIff(w1.sched, run.left, -1);
    OwnLeaksNothing(w1.(sched := Enqueue(w1.sched, run.left, -1).0), run.left);
  }

  /**
   Every event of a run loses exactly: the reference of a point-to-point message whose subscriber is
   inactive or that no queue takes, of a fan-out message without active subscriber, of a message
   accepted by sys.dropped, and of a retry that no queue takes.  All other references stay accounted for.
   */
  lemma StepLosesExactly(w: World, e: Event, w': World)
    requires Step(w, e, w')
    ensures w'.leaked == w.leaked + EventLoss(w, e)
    ensures w'.leaked == w.leaked <==> EventLoss(w, e) == multiset{}
  {
    hide Exec, Loss, Handle, HandleLoss, Gather, DrainEvq, AllAllowed, Held;
    match e {
      case Call(op) =>
        assert Sized([op]);
        ExecLeaks(w, op);
      case WorkOn(id, tick, h) =>
        var (s, t) := Gather(w.sched, id);
        if t.Some? { HandleLeaks(w.(sched := s), h(t.value)); }
    }
    NothingAdded(w.leaked, EventLoss(w, e));
  }

  lemma NothingAdded(a: multiset<nat>, b: multiset<nat>)
    ensures a + b == a <==> b == multiset{}
  {
    if a + b == a {
      forall x ensures b[x] == 0 { assert (a + b)[x] == a[x]; }
    }
  }

  lemma {:induction false} LossGrows(run: seq<World>, es: seq<Event>, j: nat, k: nat, p: nat)
    requires IsRun(run, es) && j <= k < |run|
    ensures run[j].leaked[p] <= run[k].leaked[p]
    decreases k
  {
    hide InitWorld, Step;
    if j < k {
      LossGrows(run, es, j, k - 1, p);
      StepLossGrows(run[k - 1], es[k - 1], run[k], p);
    }
  }

  lemma StepLossGrows(w: World, e: Event, w': World, p: nat)
    requires Step(w, e, w')
    ensures w.leaked[p] <= w'.leaked[p]
  {
    StepLosesExactly(w, e, w');
    hide *;
  }

  /** A payload with a lost reference is never freed; one without is freed as soon as nothing refers to it. */
  lemma LostIsForever(run: seq<World>, es: seq<Event>, j: nat, k: nat, p: nat)
    requires IsRun(run, es) && j <= k < |run|
    ensures run[j].leaked[p] > 0 ==> p in run[k].refs
    ensures run[k].leaked[p] == 0 && run[k].held[p] == 0 && Rc(Counted(run[k]), p) == 0 ==> p !in run[k].refs
  {
    hide IsRun, Rc, Counted;
    LossGrows(run, es, j, k, p);
    RefcountsAreExact(run, es, k, p);
  }

  // ---- the priority reserve --------------------------------------------------------------

  ghost predicate AllReserved(w: World) {
    |w.sched.rq.queues| == 4 && forall d: nat :: d < |w.chans| && d != SYS_DROPPED ==> Reserved(w, d)
  }

  lemma ThresholdPositive(cap: nat)
    ensures 0 <= Threshold(cap)
  {
    assert Wrap(cap * PRIORITY_RESERVE_PCT) <= cap * PRIORITY_RESERVE_PCT;
  }

  lemma OpenReserve(w: World, taken: bool, mode: Mode, lossless: bool, slots: nat)
    requires AllReserved(w) && slots < TWO32
    ensures AllReserved(Open(w, taken, mode, lossless, slots).0)
  {
    hide NextPow2, Threshold, IsPowerOfTwo;
    var w' := Open(w, taken, mode, lossless, slots).0;
    if w' != w { ThresholdPositive(w'.chans[|w.chans|].cap); }
    forall d: nat | d < |w'.chans| && d != SYS_DROPPED ensures Reserved(w', d) {
      if d < |w.chans| { assert Reserved(w, d); }
    }
  }

  lemma ExecReserve(w: World, op: Op)
    requires AllReserved(w) && Allowed(w, op)
    ensures AllReserved(Exec(w, op))
  {
    hide Emit, Drain, Subscribe, Open, Close, Perform, Takes, NonCritical, Threshold, Own;
    var w' := Exec(w, op);
    match op {
      case OpenOp(taken, mode, lossless, slots) => OpenReserve(w, taken, mode, lossless, slots);
      case CloseOp(c) =>
        forall d: nat | d < |w.chans| && d != SYS_DROPPED ensures Reserved(w', d) { CloseReserve(w, c, d); }
      case SubscribeOp(c, m, k) =>
        SubscribeKeepsShape(w, c, m, k);
        forall d: nat | d < |w.chans| && d != SYS_DROPPED ensures Reserved(w', d) { SubscribeReserve(w, c, m, k, d); }
      case EmitOp(c, t) =>
        forall d: nat | d < |w.chans| && d != SYS_DROPPED ensures Reserved(w', d) { EmitReserve(w, c, t, d); }
      case DrainOp(c, limit) =>
        if c < |w.chans| {
          forall d: nat | d < |w.chans| && d != SYS_DROPPED ensures Reserved(w', d) {
            DrainReserve(w, c, if limit == 0 then TWO32 - 1 else limit, d);
          }
        }
      case ActOp(a) => OwnFields(w, a.t, Perform(w.sched, a)); SameChans(w, w');
      case _ => SameChans(w, w');
    }
  }

  lemma CloseReserve(w: World, c: nat, d: nat)
    requires Reserved(w, d)
    ensures Reserved(Close(w, c), d)
  {
    hide NonCritical, Threshold;
  }

  lemma SubscribeReserve(w: World, c: nat, moduleId: nat, worker: int, d: nat)
    requires Reserved(w, d)
    ensures Reserved(Subscribe(w, c, moduleId, worker).0, d)
  {
    hide NonCritical, Threshold;
  }

  lemma SubscribeKeepsShape(w: World, c: nat, m: nat, k: int)
    ensures var w' := Subscribe(w, c, m, k).0; |w'.chans| == |w.chans| && w'.sched == w.sched
  {
  }

  lemma SameChans(w: World, w': World)
    requires AllReserved(w) && w'.chans == w.chans && |w'.sched.rq.queues| == 4
    ensures AllReserved(w')
  {
    hide NonCritical, Threshold;
    forall d: nat | d < |w'.chans| && d != SYS_DROPPED ensures Reserved(w', d) { assert Reserved(w, d); }
  }

  lemma {:induction false} ExecAllReserve(w: World, ops: seq<Op>)
    requires AllReserved(w) && Sized(ops) && AllAllowed(w, ops)
    ensures AllReserved(ExecAll(w, ops))
    decreases |ops|
  {
    hide Exec, Allowed, AllReserved;
    assert AllReserved(w) ==> |w.sched.rq.queues| == 4 by { QueuesOf(w); }
    if ops != [] {
      ExecReserve(w, ops[0]);
      ExecAllReserve(Exec(w, ops[0]), ops[1..]);
    }
  }

  lemma QueuesOf(w: World)
    ensures AllReserved(w) ==> |w.sched.rq.queues| == 4
  {
  }

  lemma HandleReserve(w: World, t: Task, run: Conduct)
    requires AllReserved(w) && Wellbehaved(w, t, run)
    ensures AllReserved(Handle(w, run))
  {
    hide ExecAll, AllAllowed, Enqueue, AllReserved, Held, Sized;
    QueuesOf(w);
    ExecAllReserve(w, run.calls);
    var w1 := ExecAll(w, run.calls);
    EnqueueShape(w1.sched, run.left, -1);
    SameChans(w1, Handle(w, run));
  }

  lemma StepReserve(w: World, e: Event, w': World)
    requires AllReserved(w) && Step(w, e, w')
    ensures AllReserved(w')
  {
    hide Exec, Allowed, Handle, Gather, DrainEvq, AllReserved, Wellbehaved;
    match e {
      case Call(op) => ExecReserve(w, op);
      case WorkOn(id, tick, h) =>
        var (s, t) := Gather(w.sched, id);
        QueuesOf(w);
        SameChans(w, w.(sched := s));
        if t.Some? {
          HandleReserve(w.(sched := s), t.value, h(t.value));
        } else {
          DrainShape(s, id, tick, DRAIN_LIMIT);
          SameChans(w, w');
        }
    }
  }

  lemma {:induction false} DrainShape(s: Sched, w: nat, tick: nat, n: nat)
    requires |s.rq.queues| == 4
    ensures |DrainEvq(s, w, tick, n).0.rq.queues| == 4
    decreases n
  {
    hide Enqueue, H.Remove;
    if n > 0 && H.IsDue(s.evq, tick) {
      var s0 := s.(evq := H.Remove(s.evq));
      EnqueueShape(s0, s.evq[0].task, w);
      DrainShape(Enqueue(s0, s.evq[0].task, w).0, w, tick, n - 1);
    }
  }

  /**
   In every run, non-critical messages never exceed the threshold of any ordinary channel, so a
   critical message is refused only when critical messages alone fill the reserve.
   */
  lemma {:induction false} RunReserve(run: seq<World>, es: seq<Event>, k: nat)
    requires IsRun(run, es) && k < |run|
    ensures AllReserved(run[k])
    ensures forall d: nat, t :: d < |run[k].chans| && d != SYS_DROPPED && Priority(t) == 0 && Emit(run[k], d, t).1 == CHAN_FULL ==>
      |run[k].chans[d].ring| - NonCritical(run[k].chans[d].ring) >= run[k].chans[d].cap - Threshold(run[k].chans[d].cap)
  {
    hide Emit, NonCritical, Threshold, Step, InitWorld;
    if k == 0 {
      var n :| 1 <= n <= MAX_WORKERS && run[0] == InitWorld(n);
      InitReserved(n);
    } else {
      RunReserve(run, es, k - 1);
      StepReserve(run[k - 1], es[k - 1], run[k]);
    }
    forall d: nat, t | d < |run[k].chans| && d != SYS_DROPPED && Priority(t) == 0 && Emit(run[k], d, t).1 == CHAN_FULL
      ensures |run[k].chans[d].ring| - NonCritical(run[k].chans[d].ring) >= run[k].chans[d].cap - Threshold(run[k].chans[d].cap)
    {
      assert Reserved(run[k], d);
      CriticalRefused(run[k], d, t);
    }
  }

  lemma InitReserved(n: nat)
    ensures AllReserved(InitWorld(n))
  {
    ThresholdPositive(0);
    ThresholdPositive(CHAN_SLOTS);
  }

  // ---- subscribers -------------------------------------------------------------------------

  predicate Alike(a: Chan, b: Chan) {
    a.mode == b.mode && a.subs == b.subs
  }

  /** Every channel has its mode and its subscribers still. */
  ghost predicate SameSetup(w: World, w': World) {
    |w'.chans| == |w.chans| && forall c :: 0 <= c < |w.chans| ==> Alike(w.chans[c], w'.chans[c])
  }

  lemma CopyToSetup(w: World, t: Task, lossless: bool, sub: Sub)
    requires |w.sched.rq.queues| == 4
    ensures SameSetup(w, CopyTo(w, t, lossless, sub))
  {
    hide Enqueue, HasRefcount;
  }

  lemma {:induction false} CopiesSetup(w: World, t: Task, lossless: bool, subs: seq<Sub>)
    requires |w.sched.rq.queues| == 4
    ensures SameSetup(w, CopyAll(w, t, lossless, subs))
    decreases |subs|
  {
    hide CopyTo, Alike;
    assert SameSetup(w, w) by { AlikeAll(w); }
    if subs != [] {
      CopyToSetup(w, t, lossless, subs[0]);
      var w1 := if subs[0].active then CopyTo(w, t, lossless, subs[0]) else w;
      CopiesSetup(w1, t, lossless, subs[1..]);
      AlikeTwice(w, w1, CopyAll(w, t, lossless, subs));
    }
  }

  lemma AlikeAll(w: World)
    ensures SameSetup(w, w)
  {
  }

  lemma AlikeTwice(a: World, b: World, c: World)
    requires SameSetup(a, b) && SameSetup(b, c)
    ensures SameSetup(a, c)
  {
  }

  lemma DeadLetterSetup(w: World, t: Task)
    ensures SameSetup(w, DeadLetter(w, t))
  {
  }

  lemma DeliverSetup(w: World, ch: Chan, t: Task)
    requires |w.sched.rq.queues| == 4 && ch.subs != []
    ensures SameSetup(w, Deliver(w, ch, t))
  {
    hide Enqueue, CopyAll, Retains, Active, HasRefcount, DeadLetter, Alike;
    var n := Active(ch.subs);
    AlikeAll(w);
    if ch.mode.P2P? {
      DeadLetterSetup(w.(sched := Enqueue(w.sched, t, ch.subs[0].worker).0), Numbered(w, t));
    } else if n > 0 {
      var w1 := if HasRefcount(t) then Retains(w, t.payload, n - 1) else w;
      RetainsTouchNoRing(w, t.payload, n - 1);
      CopiesSetup(w1, t, ch.lossless, ch.subs);
    }
  }

  lemma {:induction false} DrainSetup(w: World, c: nat, n: nat)
    requires |w.sched.rq.queues| == 4 && c < |w.chans|
    ensures SameSetup(w, Drain(w, c, n))
    decreases n
  {
    hide Deliver;
    if n > 0 && w.chans[c].subs != [] && w.chans[c].ring != [] {
      var ch := w.chans[c];
      var w1 := SetRing(w, c, ch.ring[1..]);
      DeliverSetup(w1, ch, ch.ring[0]);
      DrainSetup(Deliver(w1, ch, ch.ring[0]), c, n - 1);
    }
  }

  lemma BufferSetup(w: World, c: nat, t: Task, m: Task)
    requires |w.sched.rq.queues| == 4 && c < |w.chans|
    ensures SameSetup(w, Buffer(w, c, t, m).0)
  {
    hide Drain, Own, Leak;
    var ch := w.chans[c];
    if |ch.ring| < ch.cap {
      var w0 := SetRing(w, c, ch.ring + [m]);
      SameRings(w0, c, t);
      DrainSetup(if c == SYS_DROPPED then Leak(Own(w0, t), t) else Own(w0, t), c, 1);
    }
  }

  lemma EmitSetup(w: World, c: nat, t: Task)
    requires |w.sched.rq.queues| == 4
    ensures SameSetup(w, Emit(w, c, t).0)
  {
    hide Enqueue, Buffer, Tagged, Threshold, Own;
    if c < |w.chans| {
      var ch := w.chans[c];
      var m := Tagged(t, c);
      BufferSetup(w, c, t, m);
      if |ch.subs| == 1 {
        EnqueueShape(w.sched, m, ch.subs[0].worker);
        var s := Enqueue(w.sched, m, ch.subs[0].worker).0;
        OwnFields(w, t, s);
        BufferSetup(w.(sched := s), c, t, Numbered(w, m));
      }
    }
  }

  /** At most MAX_CHAN_SUBS subscribers, and one for a point-to-point channel. */
  ghost predicate SubsBound(w: World) {
    forall c :: 0 <= c < |w.chans| ==> |w.chans[c].subs| <= MAX_CHAN_SUBS && (w.chans[c].mode.P2P? ==> |w.chans[c].subs| <= 1)
  }

  lemma CloseSetup(w: World, c: nat)
    ensures SameSetup(w, Close(w, c))
  {
  }

  lemma SetupSubs(w: World, w': World)
    requires SubsBound(w) && SameSetup(w, w')
    ensures SubsBound(w')
  {
  }

  lemma OpenSubs(w: World, taken: bool, mode: Mode, lossless: bool, slots: nat)
    requires SubsBound(w) && slots < TWO32
    ensures var w' := Open(w, taken, mode, lossless, slots).0; SubsBound(w')
  {
    hide NextPow2, IsPowerOfTwo;
  }

  lemma SubscribeSubs(w: World, c: nat, m: nat, k: int)
    requires SubsBound(w)
    ensures var w' := Subscribe(w, c, m, k).0; SubsBound(w')
  {
  }

  lemma ExecSubs(w: World, op: Op)
    requires |w.sched.rq.queues| == 4 && SubsBound(w) && Sized([op])
    ensures SubsBound(Exec(w, op))
  {
    hide Emit, Drain, Perform, Takes, Open, Close, Subscribe, Own, SubsBound;
    assert op in [op];
    SubsOf(w, w);
    match op {
      case EmitOp(c, t) =>
        EmitSetup(w, c, t);
        SetupSubs(w, Exec(w, op));
      case DrainOp(c, limit) =>
        if c < |w.chans| {
          DrainSetup(w, c, if limit == 0 then TWO32 - 1 else limit);
          SetupSubs(w, Exec(w, op));
        }
      case OpenOp(taken, mode, lossless, slots) => OpenSubs(w, taken, mode, lossless, slots);
      case CloseOp(c) => SetupSubs(w, Close(w, c)) by { CloseSetup(w, c); }
      case SubscribeOp(c, m, k) => SubscribeSubs(w, c, m, k);
      case ActOp(a) =>
        OwnFields(w, a.t, Perform(w.sched, a));
        SubsOf(w, Exec(w, op));
      case _ => SubsOf(w, Exec(w, op));
    }
  }

  lemma {:induction false} ExecAllSubs(w: World, ops: seq<Op>)
    requires |w.sched.rq.queues| == 4 && SubsBound(w) && Sized(ops)
    ensures SubsBound(ExecAll(w, ops))
    decreases |ops|
  {
    hide Exec, SubsBound;
    if ops != [] {
      assert ops[0] in ops;
      ExecSubs(w, ops[0]);
      ExecAllSubs(Exec(w, ops[0]), ops[1..]);
    }
  }

  lemma StepSubs(w: World, e: Event, w': World)
    requires SubsBound(w) && Step(w, e, w')
    ensures SubsBound(w')
  {
    hide Exec, Handle, Gather, DrainEvq, AllAllowed, SubsBound;
    match e {
      case Call(op) => assert Sized([op]); ExecSubs(w, op);
      case WorkOn(id, tick, h) =>
        var (s, t) := Gather(w.sched, id);
        SubsOf(w, w.(sched := s));
        if t.Some? { HandleSubs(w.(sched := s), h(t.value)); } else { SubsOf(w, w'); }
    }
  }

  lemma SubsOf(w: World, w': World)
    requires SubsBound(w) && w'.chans == w.chans
    ensures SubsBound(w')
  {
  }

  lemma HandleSubs(w: World, run: Conduct)
    requires |w.sched.rq.queues| == 4 && SubsBound(w) && Sized(run.calls)
    ensures SubsBound(Handle(w, run))
  {
    hide ExecAll, Enqueue, SubsBound, HasRefcount;
    ExecAllSubs(w, run.calls);
    SubsOf(ExecAll(w, run.calls), Handle(w, run));
  }

  /** In every run no channel has more than MAX_CHAN_SUBS subscribers, and a point-to-point channel at most one. */
  lemma {:induction false} RunSubs(run: seq<World>, es: seq<Event>, k: nat)
    requires IsRun(run, es) && k < |run|
    ensures SubsBound(run[k])
  {
    hide Step, InitWorld;
    if k == 0 {
      var n :| 1 <= n <= MAX_WORKERS && run[0] == InitWorld(n);
      assert SubsBound(InitWorld(n)) by { InitSubs(n); }
    } else {
      RunSubs(run, es, k - 1);
      StepSubs(run[k - 1], es[k - 1], run[k]);
    }
  }

  lemma InitSubs(n: nat)
    ensures SubsBound(InitWorld(n))
  {
  }

  // ---- where things go ---------------------------------------------------------------------

  /** The slots a new channel gets: 1024 by default, else the least power of two that is enough. */
  ghost predicate SlotsFor(slots: nat, n: nat) {
    if slots == 0 then n == 1024 else IsLeastPow2Above(n, slots)
  }

  /** The exact condition for each answer of gmk_chan_open; an accepted channel is new, empty, open and last. */
  ghost predicate Opened(w: World, taken: bool, mode: Mode, lossless: bool, slots: nat, w': World, rc: int) {
    && (rc == CHAN_FULL <==> |w.chans| >= 256)
    && (rc == ERR_EXISTS <==> |w.chans| < 256 && taken)
    && (rc == ERR_NOMEM <==> |w.chans| < 256 && !taken && slots > TWO31)
    && (rc >= 0 <==> |w.chans| < 256 && !taken && slots <= TWO31)
    && (rc < 0 ==> w' == w)
    && (rc >= 0 ==> rc == |w.chans| && exists n: nat :: SlotsFor(slots, n) && w' == w.(chans := w.chans + [Chan(mode, lossless, n, [], [], true)]))
  }

  lemma OpenLands(w: World, taken: bool, mode: Mode, lossless: bool, slots: nat)
    requires slots < TWO32
    ensures var (w', rc) := Open(w, taken, mode, lossless, slots); Opened(w, taken, mode, lossless, slots, w', rc)
  {
    hide NextPow2, IsPowerOfTwo, IsLeastPow2Above;
    var n := if slots == 0 then CHAN_SLOTS else if IsPowerOfTwo(slots) then slots else NextPow2(slots);
    if slots > 0 {
      NextPow2Least(slots);
      if IsPowerOfTwo(slots) { SelfLeast(slots); }
      LeastIsPositive(n, slots);
    }
    assert n != 0 ==> SlotsFor(slots, n);
  }

  lemma LeastIsPositive(n: nat, x: nat)
    requires x > 0
    ensures IsLeastPow2Above(n, x) ==> n > 0
  {
  }

  lemma SelfLeast(x: nat)
    requires IsPowerOfTwo(x) && x < TWO32
    ensures IsLeastPow2Above(x, x) && x <= TWO31 && x > 0
  {
    hide IsPowerOfTwo, Pow2;
    var k := PowerOfTwoExponent(x);
    Pow2Words();
    if k > 31 { Pow2Monotone(32, k); } else { Pow2Monotone(k, 31); }
  }

  /** Closing takes exactly the open flag of an ordinary channel. */
  lemma CloseLands(w: World, c: nat)
    ensures var w' := Close(w, c);
      && w' == w.(chans := w'.chans) && |w'.chans| == |w.chans|
      && forall d :: 0 <= d < |w.chans| ==> w'.chans[d] == if d == c && d > 1 then w.chans[d].(open := false) else w.chans[d]
  {
  }

  /** After a handler's calls: a retried task goes to the RQ of its priority, or its reference is lost; any other is released. */
  ghost predicate Ended(w: World, rc: int, left: Task, w': World)
    requires |w.sched.rq.queues| == 4
  {
    if rc == GMK_RETRY then
      exists ok :: Enqueued(w.sched, left, -1, w'.sched, ok)
        && w' == w.(sched := w'.sched, leaked := w.leaked + if ok then multiset{} else Held(left))
    else w' == if HasRefcount(left) then Release(w, left.payload) else w
  }

  lemma HandleLands(w: World, run: Conduct)
    requires |w.sched.rq.queues| == 4 && Sized(run.calls)
    ensures Ended(ExecAll(w, run.calls), run.rc, run.left, Handle(w, run))
  {
    hide ExecAll, Enqueue, Enqueued, Release, HasRefcount, Leak, Held;
    var w1 := ExecAll(w, run.calls);
    EnqueueLands(w1.sched, run.left, -1);
    var (s, ok) := Enqueue(w1.sched, run.left, -1);
    LeakIsHeld(w1.(sched := s), run.left);
    if run.rc == GMK_RETRY { assert Enqueued(w1.sched, run.left, -1, Handle(w, run).sched, ok); }
  }

  /** A worker iteration: the task found first and its handler, or the due events. */
  ghost predicate Worked(w: World, id: nat, tick: nat, handler: Task -> Conduct, w': World)
    requires id < |w.sched.lqs| && |w.sched.rq.queues| == 4 && |w.sched.rq.counters| == 4
  {
    exists s, t: Option<Task> :: TakenInOrder(w.sched, id, s, t) && |s.rq.queues| == 4 && |s.lqs| == |w.sched.lqs|
      && if t.Some? then
           Sized(handler(t.value).calls) && w' == Handle(w.(sched := s), handler(t.value))
         else exists k: nat :: Drained(s, id, tick, DRAIN_LIMIT, w'.sched, k) && w' == w.(sched := w'.sched)
  }

  lemma WorkLands(w: World, id: nat, tick: nat, handler: Task -> Conduct)
    requires SchedInv(w.sched) && id < |w.sched.lqs|
    requires var t := Gather(w.sched, id).1; t.Some? ==> Sized(handler(t.value).calls)
    ensures Worked(w, id, tick, handler, Work(w, id, tick, handler))
  {
    hide SchedInv, Gather, TakenInOrder, Drained, DrainEvq, Handle, Total;
    GatherInOrder(w.sched, id);
    GatherTakesOne(w.sched, id);
    var (s, t) := Gather(w.sched, id);
    if t.None? {
      DrainDelivers(s, id, tick, DRAIN_LIMIT);
      assert Drained(s, id, tick, DRAIN_LIMIT, Work(w, id, tick, handler).sched, DrainEvq(s, id, tick, DRAIN_LIMIT).1);
    }
    assert TakenInOrder(w.sched, id, s, t);
  }

  /** One reference of p is gone, and with the last one the payload. */
  ghost predicate GivenUp(w: World, p: nat, w': World)
    requires p in w.refs && w.refs[p] > 0
  {
    && w'.refs == (if w.refs[p] == 1 then w.refs - {p} else w.refs[p := w.refs[p] - 1])
    && w' == w.(refs := w'.refs, held := w.held - multiset{p},
                frees := w.frees + if w.refs[p] == 1 then multiset{p} else multiset{})
  }

  /** What each kernel call does, in the terms of its own operation. */
  ghost predicate Executed(w: World, op: Op, w': World)
    requires |w.sched.rq.queues| == 4
  {
    match op
    case AllocOp(p) =>
      w' == w.(refs := w.refs[p := 1], held := w.held + multiset{p}, allocs := w.allocs + multiset{p})
    case RetainOp(p) =>
      p in w.refs ==> w' == w.(refs := w.refs[p := w.refs[p] + 1], held := w.held + multiset{p})
    case GiveUpOp(p) => p in w.refs && w.refs[p] > 0 ==> GivenUp(w, p, w')
    case OpenOp(taken, mode, lossless, slots) => exists rc :: Opened(w, taken, mode, lossless, slots, w', rc)
    case CloseOp(c) => w' == w.(chans := w'.chans) && |w'.chans| == |w.chans|
                       && forall d :: 0 <= d < |w.chans| ==> w'.chans[d] == if d == c && d > 1 then w.chans[d].(open := false) else w.chans[d]
    case SubscribeOp(c, m, k) => exists rc :: Subscribed(w, c, m, k, w', rc)
    case EmitOp(c, t) => exists rc :: Emitted(w, c, t, w', rc)
    case DrainOp(c, limit) => if c < |w.chans| then DrainedBy(w, c, if limit == 0 then 0xFFFF_FFFF else limit, w') else w' == w
    case ActOp(a) => Acted(w.sched, a, w'.sched)
                     && w' == w.(sched := w'.sched, held := w.held - if Takes(w.sched, a) then Held(a.t) else multiset{})
  }

  lemma ExecLands(w: World, op: Op)
    requires SchedInv(w.sched) && Sized([op])
    ensures Executed(w, op, Exec(w, op))
  {
    hide SchedInv, Open, Opened, Subscribe, Subscribed, Emit, Emitted, Drain, DrainedBy, Perform, Acted, Takes, Own, Held, Close;
    hide AllocPayload, Retain, Release, GivenUp;
    assert op in [op];
    match op
    case OpenOp(taken, mode, lossless, slots) =>
      OpenLands(w, taken, mode, lossless, slots);
      assert Opened(w, taken, mode, lossless, slots, Exec(w, op), Open(w, taken, mode, lossless, slots).1);
    case CloseOp(c) => CloseLands(w, c);
    case SubscribeOp(c, m, k) =>
      SubscribeLands(w, c, m, k);
      assert Subscribed(w, c, m, k, Exec(w, op), Subscribe(w, c, m, k).1);
    case EmitOp(c, t) =>
      EmitLands(w, c, t);
      assert Emitted(w, c, t, Exec(w, op), Emit(w, c, t).1);
    case DrainOp(c, limit) => if c < |w.chans| { DrainLands(w, c, if limit == 0 then 0xFFFF_FFFF else limit); }
    case ActOp(a) =>
      ActLands(w.sched, a);
      OwnIsHeld(w.(sched := Perform(w.sched, a)), a.t);
    case AllocOp(p) => CountsLand(w, p);
    case RetainOp(p) => CountsLand(w, p);
    case GiveUpOp(p) => CountsLand(w, p);
  }

  lemma CountsLand(w: World, p: nat)
    ensures AllocPayload(w, p) == w.(refs := w.refs[p := 1], held := w.held + multiset{p}, allocs := w.allocs + multiset{p})
    ensures p in w.refs ==> Retain(w, p) == w.(refs := w.refs[p := w.refs[p] + 1])
    ensures p in w.refs && w.refs[p] > 0 ==> GivenUp(w, p, Release(w.(held := w.held - multiset{p}), p))
  {
  }

  /** Calls happen in their order. */
  lemma {:induction false} ExecInOrder(w: World, a: seq<Op>, b: seq<Op>)
    requires |w.sched.rq.queues| == 4 && Sized(a + b)
    ensures Sized(a) && Sized(b) && ExecAll(w, a + b) == ExecAll(ExecAll(w, a), b)
    decreases |a|
  {
    hide Exec;
    assert forall op :: op in a || op in b ==> op in a + b;
    if a == [] {
      assert a + b == b;
    } else {
      assert (a + b)[1..] == a[1..] + b;
      ExecInOrder(Exec(w, a[0]), a[1..], b);
    }
  }

  // ---- what all this does to the scheduler -------------------------------------------------

  lemma {:induction false} PerformConcat(s: Sched, a: seq<Act>, b: seq<Act>)
    requires |s.rq.queues| == 4
    ensures PerformAll(s, a + b) == PerformAll(PerformAll(s, a), b)
    decreases |a|
  {
    hide Perform;
    if a == [] {
      assert a + b == b;
    } else {
      assert (a + b)[1..] == a[1..] + b;
      PerformConcat(Perform(s, a[0]), a[1..], b);
    }
  }

  lemma OneSubmit(s: Sched, t: Task, worker: int)
    requires |s.rq.queues| == 4
    ensures PerformAll(s, [Submit(t, worker)]) == Enqueue(s, t, worker).0
  {
    hide Enqueue;
    var s1 := Perform(s, Submit(t, worker));
    assert [Submit(t, worker)][1..] == [];
    assert PerformAll(s1, []) == s1;
  }

  lemma {:induction false} CopiesAreSubmits(w: World, t: Task, lossless: bool, subs: seq<Sub>) returns (acts: seq<Act>)
    requires |w.sched.rq.queues| == 4
    ensures PerformAll(w.sched, acts) == CopyAll(w, t, lossless, subs).sched
    decreases |subs|
  {
    hide Enqueue, PerformAll;
    acts := [];
    if subs == [] {
      NoActs(w.sched);
    } else if subs[0].active {
      var w1 := CopyTo(w, t, lossless, subs[0]);
      var rest := CopiesAreSubmits(w1, t, lossless, subs[1..]);
      OneSubmit(w.sched, t, subs[0].worker);
      acts := [Submit(t, subs[0].worker)] + rest;
      PerformConcat(w.sched, [Submit(t, subs[0].worker)], rest);
    } else {
      acts := CopiesAreSubmits(w, t, lossless, subs[1..]);
    }
  }

  lemma NoActs(s: Sched)
    requires |s.rq.queues| == 4
    ensures PerformAll(s, []) == s
  {
  }

  lemma DeliveryIsSubmits(w: World, ch: Chan, t: Task) returns (acts: seq<Act>)
    requires |w.sched.rq.queues| == 4 && ch.subs != []
    ensures PerformAll(w.sched, acts) == Deliver(w, ch, t).sched
  {
    hide Enqueue, PerformAll, CopyAll, Retains, Active;
    acts := [];
    NoActs(w.sched);
    if ch.mode.P2P? {
      if ch.subs[0].active {
        acts := [Submit(t, ch.subs[0].worker)];
        OneSubmit(w.sched, t, ch.subs[0].worker);
      }
    } else {
      var n := Active(ch.subs);
      if n > 0 {
        RetainsLeakNothing(w, t.payload, n - 1);
        acts := CopiesAreSubmits(if HasRefcount(t) then Retains(w, t.payload, n - 1) else w, t, ch.lossless, ch.subs);
      }
    }
  }

  lemma {:induction false} DrainIsSubmits(w: World, c: nat, n: nat) returns (acts: seq<Act>)
    requires |w.sched.rq.queues| == 4 && c < |w.chans|
    ensures PerformAll(w.sched, acts) == Drain(w, c, n).sched
    decreases n
  {
    hide PerformAll, Deliver;
    acts := [];
    NoActs(w.sched);
    if n > 0 && w.chans[c].subs != [] && w.chans[c].ring != [] {
      var ch := w.chans[c];
      var w1 := SetRing(w, c, ch.ring[1..]);
      acts := DeliveryIsSubmits(w1, ch, ch.ring[0]);
      var rest := DrainIsSubmits(Deliver(w1, ch, ch.ring[0]), c, n - 1);
      PerformConcat(w.sched, acts, rest);
      acts := acts + rest;
    }
  }

  lemma BufferIsSubmits(w: World, c: nat, t: Task, m: Task) returns (acts: seq<Act>)
    requires |w.sched.rq.queues| == 4 && c < |w.chans|
    ensures PerformAll(w.sched, acts) == Buffer(w, c, t, m).0.sched
  {
    hide PerformAll, Drain, Own, Leak;
    acts := [];
    NoActs(w.sched);
    var ch := w.chans[c];
    if |ch.ring| < ch.cap {
      var w0 := SetRing(w, c, ch.ring + [m]);
      SameRings(w0, c, t);
      var w2 := if c == SYS_DROPPED then Leak(Own(w0, t), t) else Own(w0, t);
      if ch.mode.P2P? { acts := DrainIsSubmits(w2, c, 1); }
    }
  }

  lemma EmitIsSubmits(w: World, c: nat, t: Task) returns (acts: seq<Act>)
    requires |w.sched.rq.queues| == 4
    ensures PerformAll(w.sched, acts) == Emit(w, c, t).0.sched
  {
    hide PerformAll, Enqueue, Buffer, Tagged, Threshold, Own;
    acts := [];
    NoActs(w.sched);
    if c < |w.chans| && w.chans[c].open && !(|w.chans[c].ring| >= Threshold(w.chans[c].cap) && Priority(Tagged(t, c)) != 0) {
      var ch := w.chans[c];
      var m := Tagged(t, c);
      if ch.mode.P2P? && |ch.subs| == 1 && ch.subs[0].active {
        var (s, ok) := Enqueue(w.sched, m, ch.subs[0].worker);
        EnqueueShape(w.sched, m, ch.subs[0].worker);
        OneSubmit(w.sched, m, ch.subs[0].worker);
        acts := [Submit(m, ch.subs[0].worker)];
        OwnFields(w, t, s);
        if !ok {
          var rest := BufferIsSubmits(w.(sched := s), c, t, Numbered(w, m));
          PerformConcat(w.sched, acts, rest);
          acts := acts + rest;
        }
      } else {
        acts := BufferIsSubmits(w, c, t, m);
      }
    }
  }

  lemma OneAct(s: Sched, a: Act)
    requires |s.rq.queues| == 4
    ensures PerformAll(s, [a]) == Perform(s, a)
  {
    hide Perform;
    assert [a][1..] == [];
    assert PerformAll(Perform(s, a), []) == Perform(s, a);
  }

  lemma ExecIsActs(w: World, op: Op) returns (acts: seq<Act>)
    requires |w.sched.rq.queues| == 4 && Sized([op])
    ensures PerformAll(w.sched, acts) == Exec(w, op).sched
  {
    hide PerformAll, Perform, Drain, Emit, Takes, Own;
    assert op in [op];
    acts := [];
    NoActs(w.sched);
    match op {
      case EmitOp(c, t) => acts := EmitIsSubmits(w, c, t);
      case DrainOp(c, limit) => if c < |w.chans| { acts := DrainIsSubmits(w, c, if limit == 0 then TWO32 - 1 else limit); }
      case ActOp(a) =>
        acts := [a];
        OneAct(w.sched, a);
        OwnFields(w, a.t, Perform(w.sched, a));
      case _ =>
    }
  }

  lemma {:induction false} ExecAllIsActs(w: World, ops: seq<Op>) returns (acts: seq<Act>)
    requires |w.sched.rq.queues| == 4 && Sized(ops)
    ensures PerformAll(w.sched, acts) == ExecAll(w, ops).sched
    decreases |ops|
  {
    hide PerformAll, Exec;
    acts := [];
    NoActs(w.sched);
    if ops != [] {
      assert ops[0] in ops;
      acts := ExecIsActs(w, ops[0]);
      var rest := ExecAllIsActs(Exec(w, ops[0]), ops[1..]);
      PerformConcat(w.sched, acts, rest);
      acts := acts + rest;
    }
  }

  /**
   Whatever a handler emits, drains or submits, the scheduler only sees submissions, yields and posts:
   a worker iteration is one of Scheduler's, so IterateConserves covers handlers that emit.
   */
  lemma WorkIsIterate(w: World, id: nat, tick: nat, handler: Task -> Conduct) returns (h: Task -> HandlerRun)
    requires id < |w.sched.lqs| && |w.sched.rq.queues| == 4 && |w.sched.rq.counters| == 4
    requires var t := Gather(w.sched, id).1; t.Some? ==> Sized(handler(t.value).calls)
    ensures Work(w, id, tick, handler).sched == Iterate(w.sched, id, tick, h).0
    ensures var t := Gather(w.sched, id).1; t.Some? ==> h(t.value).rc == handler(t.value).rc && h(t.value).left == handler(t.value).left
  {
    hide PerformAll, ExecAll, Gather, DrainEvq, Enqueue;
    var (s, t) := Gather(w.sched, id);
    var acts: seq<Act> := [];
    if t.Some? { acts := ExecAllIsActs(w.(sched := s), handler(t.value).calls); }
    h := task => HandlerRun(acts, handler(task).rc, handler(task).left);
  }
}
