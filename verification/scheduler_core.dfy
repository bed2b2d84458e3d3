/**
 The scheduler as the source updates it, built from its parts: one local queue per worker, the MPMC
 overflow ring, the ready queue of four rings and the event heap.  Each method refines Scheduler.
 */
module SchedulerCore {
  import opened Words
  import opened Tasks
  import opened MpmcProtocol
  import opened MpmcRing
  import opened Options
  import opened LocalQueue
  import opened Scheduler
  import opened Routes
  import ReadyQueue
  import EventQueue
  import H = EventHeap

  /** The watermark that gmk_lq_init computes for the default capacity is the one Scheduler uses. */
  lemma DefaultWatermark()
    ensures GoodCap(LQ_CAP) && Watermark(LQ_CAP) == LQ_WATERMARK
    ensures GoodCap(RQ_CAP) && GoodCap(OVERFLOW_CAP)
  {
    Pow2Words();
    Pow2Add(5, 5);
    assert Pow2(5) == 32;
    Pow2IsPowerOfTwo(10);
    Pow2IsPowerOfTwo(12);
  }

  class Core {
    const bank: Bank
    const overflow: Ring<Task>
    const rq: ReadyQueue.Queue
    const evq: EventQueue.Queue
    var nextSeq: nat  // 32-bit word

    /** The parts do not share memory. */
    ghost predicate Shape() {
      && bank.cap == LQ_CAP && overflow.cap == OVERFLOW_CAP && rq.cap == RQ_CAP && evq.heap.Length == EVQ_CAP
      && this !in bank.repr && this !in rq.Frame()
      && bank.repr !! ({overflow, overflow.cells} + rq.Frame() + {evq, evq.heap})
      && {overflow, overflow.cells} !! (rq.Frame() + {evq, evq.heap}) && rq.Frame() !! {evq, evq.heap}
    }

    ghost function Frame(): set<object> {
      {this} + bank.repr + {overflow, overflow.cells} + rq.Frame() + {evq, evq.heap}
    }

    ghost predicate Valid()
      reads Frame()
    {
      Shape() && bank.Valid() && overflow.Valid() && rq.Valid() && evq.Valid() && nextSeq < TWO32
    }

    ghost function State(): Sched
      requires Valid()
      reads Frame()
    {
      Sched(bank.Lists(), overflow.Contents, rq.State(), evq.Entries(), nextSeq, evq.nextSeq)
    }

    /** Every valid core satisfies the scheduler's invariant. */
    lemma ValidIsInv()
      requires Valid()
      ensures SchedInv(State())
    {
      hide Holds, Slot, GoodCap, H.EvqInv, Bank.Valid;
      rq.Bounds();
      overflow.Within();
      forall w: nat | w < |bank.lqs| ensures |bank.Lists()[w]| <= LQ_CAP { bank.Bounds(w); }
    }

    constructor (bank: Bank, overflow: Ring<Task>, rq: ReadyQueue.Queue, evq: EventQueue.Queue)
      requires bank.Valid() && bank.cap == LQ_CAP && overflow.Valid() && overflow.cap == OVERFLOW_CAP
      requires rq.Valid() && rq.cap == RQ_CAP && evq.Valid() && evq.heap.Length == EVQ_CAP
      requires bank.repr !! ({overflow, overflow.cells} + rq.Frame() + {evq, evq.heap})
      requires {overflow, overflow.cells} !! (rq.Frame() + {evq, evq.heap}) && rq.Frame() !! {evq, evq.heap}
      ensures this.bank == bank && this.overflow == overflow && this.rq == rq && this.evq == evq
      ensures Valid() && fresh(this)
      ensures State() == Sched(bank.Lists(), overflow.Contents, rq.State(), evq.Entries(), 0, evq.nextSeq)
    {
      hide Holds, H.EvqInv, Bank.Valid, ReadyQueue.Queue.Valid;
      this.bank, this.overflow, this.rq, this.evq := bank, overflow, rq, evq;
      nextSeq := 0;
    }

    /** The parts of gmk_sched_init, for a number of workers it accepts. */
    static method Assemble(n: nat) returns (core: Core)
      requires 1 <= n <= MAX_WORKERS
      ensures core.Valid() && fresh(core.Frame())
      ensures core.State() == Sched(seq(n, _ => []), [], ReadyQueue.Rq([[], [], [], []], [0, 0, 0, 0]), [], 0, 0)
    {
      hide Ring.Valid, GoodCap, EventQueue.Queue.Valid, Watermark, ReadyQueue.Queue.Valid, Bank.Valid, Core.State, Core.Valid, Core.Shape;
      DefaultWatermark();
      var bank := new Bank(n, LQ_CAP);
      var evq := new EventQueue.Queue(EVQ_CAP);
      var overflow := new Ring<Task>(OVERFLOW_CAP);
      assert bank.repr !! {overflow, overflow.cells, evq, evq.heap};
      var rq := new ReadyQueue.Queue(RQ_CAP);
      assert rq.Frame() !! bank.repr + {overflow, overflow.cells, evq, evq.heap};
      core := new Core(bank, overflow, rq, evq);
    }

    /** gmk_sched_init: refused for no worker or more than 32. */
    static method Create(n: nat) returns (core: Core?)
      ensures core == null <==> n == 0 || n > MAX_WORKERS
      ensures core != null ==> core.Valid() && fresh(core.Frame()) && SchedInv(core.State())
      ensures core != null ==> Total(core.State()) == multiset{} && core.State().lqs == seq(n, _ => [])
    {
      hide SchedInv, Total, Core.Valid, Core.State, Core.Frame;
      if n == 0 || n > MAX_WORKERS { return null; }
      core := Assemble(n);
      core.ValidIsInv();
      EmptyTotal(core.State());
    }

    static lemma EmptyTotal(s: Sched)
      requires (forall w :: 0 <= w < |s.lqs| ==> s.lqs[w] == []) && s.overflow == [] && s.evq == []
      requires s.rq.queues == [[], [], [], []]
      ensures Total(s) == multiset{}
    {
      EmptyBag(s.lqs);
      EmptyBag(s.rq.queues);
      assert EventTasks(s.evq) == [];
    }

    static lemma {:induction false} EmptyBag(qs: seq<seq<Task>>)
      requires forall w :: 0 <= w < |qs| ==> qs[w] == []
      ensures BagAll(qs) == multiset{}
      decreases |qs|
    {
      if qs != [] { EmptyBag(qs[1..]); }
    }

    // ---- one part at a time ---------------------------------------------------------------

    /** gmk_lq_push on worker w's queue. */
    method PushLq(w: nat, t: Task) returns (ok: bool)
      requires Valid() && w < |State().lqs|
      modifies bank.repr
      ensures Valid() && ok == (|old(State()).lqs[w]| < LQ_WATERMARK)
      ensures State() == if ok then Scheduler.PushLq(old(State()), w, t) else old(State())
    {
      hide Ring.Valid, EventQueue.Queue.Valid, Bank.Valid, ReadyQueue.RqInv, ReadyQueue.Queue.Valid;
      DefaultWatermark();
      ok := bank.Push(w, t);
    }

    /** gmk_lq_push_yield on worker w's queue: up to its full capacity. */
    method YieldLq(w: nat, t: Task) returns (ok: bool)
      requires Valid() && w < |State().lqs|
      modifies bank.repr
      ensures Valid() && ok == (|old(State()).lqs[w]| < LQ_CAP)
      ensures State() == if ok then Scheduler.PushLq(old(State()), w, t) else old(State())
    {
      hide Ring.Valid, EventQueue.Queue.Valid, Bank.Valid, ReadyQueue.RqInv, ReadyQueue.Queue.Valid;
      ok := bank.PushYield(w, t);
    }

    /** gmk_lq_pop on worker w's queue. */
    method PopLq(w: nat) returns (r: Option<Task>)
      requires Valid() && w < |State().lqs|
      modifies bank.repr
      ensures Valid() && (r.None? <==> old(State()).lqs[w] == [])
      ensures r.None? ==> State() == old(State())
      ensures r.Some? ==> r.value == old(State()).lqs[w][0] && State() == old(State()).(lqs := old(State()).lqs[w := old(State()).lqs[w][1..]])
    {
      hide Ring.Valid, EventQueue.Queue.Valid, Bank.Valid, ReadyQueue.RqInv, ReadyQueue.Queue.Valid;
      r := bank.Pop(w);
    }

    method PushOverflow(t: Task) returns (ok: bool)
      requires Valid()
      modifies overflow, overflow.cells
      ensures Valid() && ok == (|old(State()).overflow| < OVERFLOW_CAP)
      ensures State() == if ok then old(State()).(overflow := old(State()).overflow + [t]) else old(State())
    {
      hide Ring.Valid, EventQueue.Queue.Valid, Bank.Valid, ReadyQueue.RqInv, ReadyQueue.Queue.Valid;
      var spurious: nat := *;
      ok := overflow.Push(t, spurious);
    }

    method PopOverflow() returns (r: Option<Task>)
      requires Valid()
      modifies overflow, overflow.cells
      ensures Valid() && (r.None? <==> old(State()).overflow == [])
      ensures r.None? ==> State() == old(State())
      ensures r.Some? ==> r.value == old(State()).overflow[0] && State() == old(State()).(overflow := old(State()).overflow[1..])
    {
      hide Ring.Valid, EventQueue.Queue.Valid, Bank.Valid, ReadyQueue.RqInv, ReadyQueue.Queue.Valid;
      var spurious: nat := *;
      r := overflow.Pop(spurious);
    }

    method PushRq(t: Task) returns (ok: bool)
      requires Valid()
      modifies rq.Frame()
      ensures Valid() && |old(State()).rq.queues| == 4
      ensures var (q, b) := ReadyQueue.RqPush(old(State()).rq, RQ_CAP, t); ok == b && State() == old(State()).(rq := q)
    {
      hide Ring.Valid, EventQueue.Queue.Valid, Bank.Valid, ReadyQueue.RqInv, ReadyQueue.Queue.Valid;
      ok := rq.Push(t);
    }

    method PopRq() returns (r: Option<Task>)
      requires Valid()
      modifies rq.Frame()
      ensures Valid() && |old(State()).rq.queues| == 4 && |old(State()).rq.counters| == 4
      ensures var (q, t) := ReadyQueue.RqPop(old(State()).rq); r == t && State() == old(State()).(rq := q)
    {
      hide Ring.Valid, EventQueue.Queue.Valid, Bank.Valid, ReadyQueue.RqInv, ReadyQueue.Queue.Valid;
      Sizes();
      r := rq.Pop();
    }

    /** gmk_evq_push. */
    method PushEvent(t: Task) returns (ok: bool)
      requires Valid()
      modifies evq, evq.heap
      ensures Valid() && (State(), ok) == Post(old(State()), t)
    {
      hide Ring.Valid, H.EvqInv, Bank.Valid, ReadyQueue.RqInv, ReadyQueue.Queue.Valid;
      ok := evq.Insert(t);
    }

    /** gmk_evq_pop_due. */
    method PopEvent(tick: nat) returns (r: Option<Task>)
      requires Valid()
      modifies evq, evq.heap
      ensures Valid() && (r.Some? <==> H.IsDue(old(State()).evq, tick))
      ensures r.None? ==> State() == old(State())
      ensures r.Some? ==> r.value == old(State()).evq[0].task && State() == old(State()).(evq := H.Remove(old(State()).evq))
    {
      hide Ring.Valid, H.EvqInv, Bank.Valid, ReadyQueue.RqInv, ReadyQueue.Queue.Valid;
      H.RefusedIffNoneDue(evq.Entries(), tick);
      r := evq.PopDue(tick);
    }

    /** The next serial number. */
    method NextSerial() returns (serial: nat)
      requires Valid()
      modifies this`nextSeq
      ensures Valid() && serial == old(State()).nextSeq && State() == old(State()).(nextSeq := Wrap(serial + 1))
    {
      hide Ring.Valid, EventQueue.Queue.Valid, Bank.Valid, ReadyQueue.RqInv, ReadyQueue.Queue.Valid;
      serial := nextSeq;
      nextSeq := Wrap(nextSeq + 1);
    }

    lemma Sizes()
      requires Valid()
      ensures |State().rq.queues| == 4 && |State().rq.counters| == 4 && |State().lqs| == |bank.lqs|
    {
      hide Holds, H.EvqInv, Bank.Valid, SpscRing.Stores;
    }

    // ---- the scheduler's operations -------------------------------------------------------

    /** _gmk_enqueue: number the task, then the worker's queue below its watermark, else the RQ. */
    method EnqueueTask(t: Task, worker: int) returns (ok: bool)
      requires Valid()
      modifies Frame()
      ensures Valid() && SchedInv(State()) && |State().lqs| == |old(State()).lqs|
      ensures (State(), ok) == Enqueue(old(State()), t, worker) && |old(State()).rq.queues| == 4
      ensures Enqueued(old(State()), t, worker, State(), ok)
      ensures Total(State()) == Total(old(State())) + When(ok, t)
    {
      hide Core.Valid, Core.State, SchedInv, Total, When, ReadyQueue.RqPush, Core.Shape, Enqueued;
      ValidIsInv();
      Sizes();
      EnqueueConserves(State(), t, worker);
      EnqueueLands(State(), t, worker);
      var serial := NextSerial();
      var task := t.(serial := serial);
      if 0 <= worker && worker < |bank.lqs| {
        ok := PushLq(worker, task);
        if ok { return true; }
      }
      ok := PushRq(task);
    }

    /** _gmk_yield. */
    method YieldTo(t: Task, worker: int, maxYields: nat) returns (rc: int)
      requires Valid()
      modifies Frame()
      ensures Valid() && SchedInv(State()) && |State().lqs| == |old(State()).lqs|
      ensures (State(), rc) == Yield(old(State()), t, worker, maxYields)
      ensures YieldedTo(old(State()), t, worker, maxYields, State(), rc)
      ensures Total(State()) == Total(old(State())) + When(rc == GMK_OK, Yielded(t))
    {
      hide Core.Valid, Core.State, SchedInv, Total, When, Core.Shape, YieldedTo;
      ValidIsInv();
      Sizes();
      YieldConserves(State(), t, worker, maxYields);
      YieldLands(State(), t, worker, maxYields);
      var task := t.(yieldCount := (t.yieldCount + 1) % 0x1_0000);
      var limit := if maxYields == 0 then DEFAULT_MAX_YIELDS else maxYields;
      if task.yieldCount > limit { return YIELD_LIMIT; }
      if 0 <= worker && worker < |bank.lqs| {
        var ok := YieldLq(worker, task);
        if ok { return GMK_OK; }
      }
      var ok := PushOverflow(task);
      return if ok then GMK_OK else YIELD_OVERFLOW;
    }

    /** gmk_evq_push on the scheduler's event queue. */
    method PostTask(t: Task) returns (ok: bool)
      requires Valid()
      modifies Frame()
      ensures Valid() && SchedInv(State()) && |State().lqs| == |old(State()).lqs|
      ensures (State(), ok) == Post(old(State()), t) && Posted(old(State()), t, State(), ok)
      ensures Total(State()) == Total(old(State())) + When(ok, t)
    {
      hide Core.Valid, Core.State, SchedInv, Total, When, Post, Posted;
      ValidIsInv();
      PostLands(State(), t);
      PostConserves(State(), t);
      ok := PushEvent(t);
    }

    /** One act of a handler; true when its task was accepted. */
    method PerformAct(a: Act) returns (ok: bool)
      requires Valid()
      modifies Frame()
      ensures Valid() && SchedInv(State()) && |State().lqs| == |old(State()).lqs| && |old(State()).rq.queues| == 4
      ensures State() == Perform(old(State()), a) && ok == Takes(old(State()), a)
      ensures Total(State()) == Total(old(State())) + When(ok, Stored(a))
    {
      hide Core.Valid, Core.State, SchedInv, Total, When, Post, Enqueue, Yield;
      Sizes();
      match a {
        case Submit(t, w) => ok := EnqueueTask(t, w);
        case YieldTask(t, w, m) => var rc := YieldTo(t, w, m); ok := rc == GMK_OK;
        case PostEvent(t) => ok := PostTask(t);
      }
    }

    /** worker_dispatch_task: the handler's acts one by one, then the retry. */
    method DispatchTask(run: HandlerRun)
      requires Valid()
      modifies Frame()
      ensures Valid() && SchedInv(State()) && |State().lqs| == |old(State()).lqs| && |old(State()).rq.queues| == 4
      ensures State() == Dispatch(old(State()), run) && Dispatched(old(State()), run, State())
    {
      hide Core.Valid, Core.State, Core.Frame, SchedInv, Perform, Enqueue, Dispatched, Enqueued;
      Sizes();
      ValidIsInv();
      DispatchLands(State(), run);
      var i := 0;
      while i < |run.acts|
        invariant i <= |run.acts| && Valid() && |State().rq.queues| == 4 && |State().lqs| == |old(State()).lqs|
        invariant PerformAll(State(), run.acts[i..]) == PerformAll(old(State()), run.acts)
      {
        assert run.acts[i..][1..] == run.acts[i + 1..];
        var _ := PerformAct(run.acts[i]);
        i := i + 1;
      }
      ValidIsInv();
      if run.rc == GMK_RETRY { var _ := EnqueueTask(run.left, -1); }
    }

    /** Steps 1 to 3 of the worker loop: own LQ, overflow bucket, RQ. */
    method GatherTask(w: nat) returns (t: Option<Task>)
      requires Valid() && w < |State().lqs|
      modifies Frame()
      ensures Valid() && SchedInv(State()) && |State().lqs| == |old(State()).lqs|
      ensures |old(State()).rq.queues| == 4 && |old(State()).rq.counters| == 4
      ensures (State(), t) == Gather(old(State()), w) && TakenInOrder(old(State()), w, State(), t)
      ensures Total(old(State())) == Total(State()) + (if t.Some? then When(true, t.value) else multiset{})
    {
      hide Core.Valid, Core.State, SchedInv, Total, TakenInOrder;
      ghost var s := State();
      ValidIsInv();
      Sizes();
      GatherTakesOne(s, w);
      GatherInOrder(s, w);
      t := PopLq(w);
      if t.None? {
        t := PopOverflow();
        if t.None? { t := PopRq(); }
      }
    }

    /** Step 4: move due events to the worker's queue, at most `limit` of them (DRAIN_LIMIT in WorkerPass). */
    method DrainEvents(w: nat, tick: nat, limit: nat) returns (drained: nat)
      requires Valid()
      modifies Frame()
      ensures Valid() && SchedInv(State()) && |State().lqs| == |old(State()).lqs| && |old(State()).rq.queues| == 4
      ensures (State(), drained) == DrainEvq(old(State()), w, tick, limit)
      ensures w < |old(State()).lqs| && |old(State()).lqs[w]| + limit <= LQ_WATERMARK ==>
        Drained(old(State()), w, tick, limit, State(), drained)
    {
      hide Core.Valid, Core.State, SchedInv, Enqueue, H.Remove, Total, When, Drained, Enqueued;
      Sizes();
      ValidIsInv();
      if w < |State().lqs| && |State().lqs[w]| + limit <= LQ_WATERMARK { DrainDelivers(State(), w, tick, limit); }
      drained := 0;
      while drained < limit
        invariant drained <= limit && Valid() && |State().rq.queues| == 4 && |State().lqs| == |old(State()).lqs|
        invariant var (s, k) := DrainEvq(State(), w, tick, limit - drained);
          (s, k + drained) == DrainEvq(old(State()), w, tick, limit)
      {
        var t := PopEvent(tick);
        if t.None? { break; }
        Sizes();
        var _ := EnqueueTask(t.value, w);
        Sizes();
        drained := drained + 1;
      }
      ValidIsInv();
    }

    /** One pass of the gmk_worker_loop body; false when the worker parks. */
    method WorkerPass(w: nat, tick: nat, handler: Task -> HandlerRun) returns (worked: bool)
      requires Valid() && w < |State().lqs|
      modifies Frame()
      ensures Valid() && SchedInv(State()) && |State().lqs| == |old(State()).lqs|
      ensures |old(State()).rq.queues| == 4 && |old(State()).rq.counters| == 4
      ensures (State(), worked) == Iterate(old(State()), w, tick, handler)
      ensures Passed(old(State()), w, tick, handler, State(), worked)
      ensures !worked <==>
        && old(State()).lqs[w] == [] && old(State()).overflow == []
        && (forall i :: 0 <= i < 4 ==> old(State()).rq.queues[i] == [])
        && forall e :: e in old(State()).evq ==> H.Tick(e.task) > tick
    {
      hide Core.Valid, Core.State, Core.Frame, SchedInv, Gather, DrainEvq, Dispatch, Total, When, Passed;
      hide TakenInOrder, Dispatched, Drained;
      ValidIsInv();
      Sizes();
      IterateLands(State(), w, tick, handler);
      ParkOnlyWhenIdle(State(), w, tick, handler);
      var t := GatherTask(w);
      if t.Some? {
        DispatchTask(handler(t.value));
        return true;
      }
      var drained := DrainEvents(w, tick, DRAIN_LIMIT);
      worked := drained > 0;
    }
  }
}
