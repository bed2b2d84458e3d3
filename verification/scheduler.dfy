/**
 The scheduler aggregate: _gmk_enqueue and _gmk_yield (src/enqueue.c) and one iteration of
 gmk_worker_loop (src/worker.c), one call at a time.  Rings are the FIFOs that MpmcRing.Ring and
 SpscRing.LocalRing refine; the ready and event queues are those of ReadyQueue and EventHeap.
 */
module Scheduler {
  import opened Words
  import opened Tasks
  import opened Options
  import opened ReadyQueue
  import H = EventHeap

  const MAX_WORKERS: nat := 32
  const RQ_CAP: nat := 4096
  const LQ_CAP: nat := 1024
  const LQ_WATERMARK: nat := 768
  const EVQ_CAP: nat := 65536
  const OVERFLOW_CAP: nat := 4096
  const DRAIN_LIMIT: nat := 256
  const DEFAULT_MAX_YIELDS: nat := 16

  const GMK_OK: int := 0
  const GMK_RETRY: int := 1
  const YIELD_OVERFLOW: int := -9
  const YIELD_LIMIT: int := -10

  datatype Sched = Sched(
    lqs: seq<seq<Task>>,
    overflow: seq<Task>,
    rq: Rq,
    evq: seq<H.Entry>,
    nextSeq: nat,
    evqSeq: nat)

  ghost predicate SchedInv(s: Sched)
    ensures SchedInv(s) ==> |s.rq.queues| == 4 && |s.rq.counters| == 4
  {
    && RqInv(s.rq) && (forall i :: 0 <= i < 4 ==> |s.rq.queues[i]| <= RQ_CAP)
    && (forall w :: 0 <= w < |s.lqs| ==> |s.lqs[w]| <= LQ_CAP)
    && |s.overflow| <= OVERFLOW_CAP
    && H.EvqInv(s.evq) && |s.evq| <= EVQ_CAP && s.nextSeq < TWO32 && s.evqSeq < TWO32
  }

  predicate HasLq(s: Sched, worker: int) {
    0 <= worker < |s.lqs|
  }

  function PushLq(s: Sched, w: nat, t: Task): Sched
    requires w < |s.lqs|
  {
    s.(lqs := s.lqs[w := s.lqs[w] + [t]])
  }

  /** _gmk_enqueue: number the task, then its worker's LQ below the watermark, else the RQ. */
  function Enqueue(s: Sched, t: Task, worker: int): (Sched, bool)
    requires |s.rq.queues| == 4
  {
    var t' := t.(serial := s.nextSeq);
    var s1 := s.(nextSeq := Wrap(s.nextSeq + 1));
    if HasLq(s, worker) && |s.lqs[worker]| < LQ_WATERMARK then (PushLq(s1, worker, t'), true)
    else
      var (rq, ok) := RqPush(s.rq, RQ_CAP, t');
      (s1.(rq := rq), ok)
  }

  function Yielded(t: Task): Task {
    t.(yieldCount := (t.yieldCount + 1) % 0x1_0000)
  }

  /** _gmk_yield: circuit breaker, then the LQ up to its full capacity, then the overflow bucket. */
  function Yield(s: Sched, t: Task, worker: int, maxYields: nat): (Sched, int) {
    var t' := Yielded(t);
    if t'.yieldCount > (if maxYields == 0 then DEFAULT_MAX_YIELDS else maxYields) then (s, YIELD_LIMIT)
    else if HasLq(s, worker) && |s.lqs[worker]| < LQ_CAP then (PushLq(s, worker, t'), GMK_OK)
    else if |s.overflow| < OVERFLOW_CAP then (s.(overflow := s.overflow + [t']), GMK_OK)
    else (s, YIELD_OVERFLOW)
  }

  /** gmk_evq_push. */
  function Post(s: Sched, t: Task): (Sched, bool) {
    if |s.evq| >= EVQ_CAP then (s, false)
    else (s.(evq := H.Push(s.evq, t, s.evqSeq), evqSeq := Wrap(s.evqSeq + 1)), true)
  }

  /** What a handler may do to the scheduler. */
  datatype Act = Submit(t: Task, worker: int) | YieldTask(t: Task, worker: int, maxYields: nat) | PostEvent(t: Task)

  /** A handler's run: its acts, its return code, and the task record as it leaves it. */
  datatype HandlerRun = HandlerRun(acts: seq<Act>, rc: int, left: Task)

  function Perform(s: Sched, a: Act): (res: Sched)
    requires |s.rq.queues| == 4
    ensures |res.rq.queues| == 4
  {
    match a
    case Submit(t, w) => Enqueue(s, t, w).0
    case YieldTask(t, w, m) => Yield(s, t, w, m).0
    case PostEvent(t) => Post(s, t).0
  }

  /** The task an act puts into a queue. */
  function Stored(a: Act): Task {
    if a.YieldTask? then Yielded(a.t) else a.t
  }

  /** Whether an act is accepted. */
  predicate Takes(s: Sched, a: Act)
    requires |s.rq.queues| == 4
  {
    match a
    case Submit(t, w) => Enqueue(s, t, w).1
    case YieldTask(t, w, m) => Yield(s, t, w, m).1 == GMK_OK
    case PostEvent(t) => Post(s, t).1
  }

  function PerformAll(s: Sched, acts: seq<Act>): (res: Sched)
    requires |s.rq.queues| == 4
    ensures |res.rq.queues| == 4
    decreases |acts|
  {
    if acts == [] then s else PerformAll(Perform(s, acts[0]), acts[1..])
  }

  /** worker_dispatch_task: run the handler, and re-enqueue the task when it asks for a retry. */
  function Dispatch(s: Sched, run: HandlerRun): Sched
    requires |s.rq.queues| == 4
  {
    var s1 := PerformAll(s, run.acts);
    if run.rc == GMK_RETRY then Enqueue(s1, run.left, -1).0 else s1
  }

  /** The EVQ step: at most n due events move to the worker's queue. */
  function DrainEvq(s: Sched, w: nat, tick: nat, n: nat): (Sched, nat)
    requires |s.rq.queues| == 4
    decreases n
  {
    if n > 0 && H.IsDue(s.evq, tick) then
      var s1 := Enqueue(s.(evq := H.Remove(s.evq)), s.evq[0].task, w).0;
      var (s', k) := DrainEvq(s1, w, tick, n - 1);
      (s', k + 1)
    else (s, 0)
  }

  /** Gather: own LQ, overflow, RQ.  An RQ pop that finds nothing still resets the pop counters. */
  function Gather(s: Sched, w: nat): (res: (Sched, Option<Task>))
    requires w < |s.lqs| && |s.rq.queues| == 4 && |s.rq.counters| == 4
    ensures |res.0.rq.queues| == 4 && |res.0.lqs| == |s.lqs|
  {
    if s.lqs[w] != [] then (s.(lqs := s.lqs[w := s.lqs[w][1..]]), Some(s.lqs[w][0]))
    else if s.overflow != [] then (s.(overflow := s.overflow[1..]), Some(s.overflow[0]))
    else
      var (rq, t) := RqPop(s.rq);
      (s.(rq := rq), t)
  }

  /** One iteration of gmk_worker_loop; the second result is false when the worker parks. */
  function Iterate(s: Sched, w: nat, tick: nat, handler: Task -> HandlerRun): (Sched, bool)
    requires w < |s.lqs| && |s.rq.queues| == 4 && |s.rq.counters| == 4
  {
    var (s1, t) := Gather(s, w);
    if t.Some? then (Dispatch(s1, handler(t.value)), true)
    else
      var (s2, k) := DrainEvq(s1, w, tick, DRAIN_LIMIT);
      (s2, k > 0)
  }

  // ---- conservation ----------------------------------------------------------------

  /** The tasks of a queue, up to their serial numbers. */
  ghost function Bag(q: seq<Task>): multiset<Task> {
    multiset(seq(|q|, i requires 0 <= i < |q| => Unserial(q[i])))
  }

  lemma BagConcat(a: seq<Task>, b: seq<Task>)
    ensures Bag(a + b) == Bag(a) + Bag(b)
  {
    assert seq(|a + b|, i requires 0 <= i < |a + b| => Unserial((a + b)[i]))
        == seq(|a|, i requires 0 <= i < |a| => Unserial(a[i])) + seq(|b|, i requires 0 <= i < |b| => Unserial(b[i]));
  }

  lemma BagOne(t: Task)
    ensures Bag([t]) == multiset{Unserial(t)}
  {
    assert seq(1, i requires 0 <= i < 1 => Unserial([t][i])) == [Unserial(t)];
  }

  lemma BagAppend(q: seq<Task>, t: Task)
    ensures Bag(q + [t]) == Bag(q) + multiset{Unserial(t)}
  {
    BagConcat(q, [t]);
    BagOne(t);
  }

  lemma BagFirst(q: seq<Task>)
    requires q != []
    ensures Unserial(q[0]) in Bag(q) && Bag(q[1..]) == Bag(q) - multiset{Unserial(q[0])}
  {
    assert q == [q[0]] + q[1..];
    BagConcat([q[0]], q[1..]);
    BagOne(q[0]);
  }

  ghost function BagAll(qs: seq<seq<Task>>): multiset<Task> {
    if qs == [] then multiset{} else Bag(qs[0]) + BagAll(qs[1..])
  }

  lemma {:induction false} BagAllUpdate(qs: seq<seq<Task>>, i: nat, q: seq<Task>)
    requires i < |qs|
    ensures Bag(qs[i]) <= BagAll(qs)
    ensures BagAll(qs[i := q]) == BagAll(qs) - Bag(qs[i]) + Bag(q)
  {
    hide Bag;
    if i == 0 {
      assert qs[0 := q][1..] == qs[1..];
      Regroup(multiset{}, Bag(qs[0]), BagAll(qs[1..]), Bag(q));
    } else {
      BagAllUpdate(qs[1..], i - 1, q);
      assert qs[i := q][1..] == qs[1..][i - 1 := q];
      Regroup(Bag(qs[0]), Bag(qs[i]), BagAll(qs[1..]) - Bag(qs[i]), Bag(q));
    }
  }

  lemma Regroup(a: multiset<Task>, b: multiset<Task>, c: multiset<Task>, d: multiset<Task>)
    ensures a + b + c - b + d == a + (b + c - b + d)
    ensures b + c == c + b && b + c - b == c && b <= a + (b + c) && c + d == d + c
    ensures a + (c + d) == a + (b + c) - b + d
  {
  }

  function EventTasks(evq: seq<H.Entry>): seq<Task> {
    seq(|evq|, i requires 0 <= i < |evq| => evq[i].task)
  }

  lemma WithoutOne(b: seq<H.Entry>, k: nat)
    requires k < |b|
    ensures var rest := b[..k] + b[k + 1..];
      && multiset(b) == multiset(rest) + multiset{b[k]}
      && Bag(EventTasks(b)) == Bag(EventTasks(rest)) + multiset{Unserial(b[k].task)}
  {
    assert b == b[..k] + ([b[k]] + b[k + 1..]);
    EventTasksConcat(b[..k], [b[k]] + b[k + 1..]);
    EventTasksConcat([b[k]], b[k + 1..]);
    EventTasksConcat(b[..k], b[k + 1..]);
    assert EventTasks([b[k]]) == [b[k].task];
    BagOne(b[k].task);
  }

  lemma Cancel(m: multiset<H.Entry>, n: multiset<H.Entry>, e: H.Entry)
    requires m + multiset{e} == n + multiset{e}
    ensures m == n
  {
    assert m == (m + multiset{e}) - multiset{e} && n == (n + multiset{e}) - multiset{e};
  }

  /** Reordering a heap does not change the tasks in it. */
  lemma {:induction false} BagOfPermutation(a: seq<H.Entry>, b: seq<H.Entry>)
    requires multiset(a) == multiset(b)
    ensures Bag(EventTasks(a)) == Bag(EventTasks(b))
    decreases |a|
  {
    hide Bag, EventTasks;
    if a == [] {
      assert |multiset(b)| == 0;
    } else {
      assert a[0] in multiset(b);
      var k :| 0 <= k < |b| && b[k] == a[0];
      WithoutOne(a, 0);
      WithoutOne(b, k);
      assert a[..0] + a[1..] == a[1..];
      Cancel(multiset(a[1..]), multiset(b[..k] + b[k + 1..]), a[0]);
      BagOfPermutation(a[1..], b[..k] + b[k + 1..]);
    }
  }

  lemma EventTasksConcat(a: seq<H.Entry>, b: seq<H.Entry>)
    ensures Bag(EventTasks(a + b)) == Bag(EventTasks(a)) + Bag(EventTasks(b))
  {
    assert EventTasks(a + b) == EventTasks(a) + EventTasks(b);
    BagConcat(EventTasks(a), EventTasks(b));
  }

  /** Every task held anywhere in the scheduler, up to serial numbers. */
  ghost function Total(s: Sched): multiset<Task> {
    BagAll(s.lqs) + Bag(s.overflow) + BagAll(s.rq.queues) + Bag(EventTasks(s.evq))
  }

  ghost function When(ok: bool, t: Task): multiset<Task> {
    if ok then multiset{Unserial(t)} else multiset{}
  }

  lemma PushLqTotal(s: Sched, w: nat, t: Task)
    requires w < |s.lqs|
    ensures Total(PushLq(s, w, t)) == Total(s) + When(true, t)
  {
    hide Total, Bag;
    BagAppend(s.lqs[w], t);
    LqTotal(s, w, s.lqs[w] + [t]);
  }

  lemma EnqueueConserves(s: Sched, t: Task, worker: int)
    requires SchedInv(s)
    ensures var (s', ok) := Enqueue(s, t, worker); SchedInv(s') && |s'.lqs| == |s.lqs| && Total(s') == Total(s) + When(ok, t)
  {
    var t' := t.(serial := s.nextSeq);
    var s1 := s.(nextSeq := Wrap(s.nextSeq + 1));
    assert Total(s1) == Total(s) && Unserial(t') == Unserial(t);
    if HasLq(s, worker) && |s.lqs[worker]| < LQ_WATERMARK {
      PushLqTotal(s1, worker, t');
    } else {
      PushRqTotal(s1, t');
    }
  }

  lemma PushRqInv(s: Sched, t: Task)
    requires SchedInv(s)
    ensures SchedInv(s.(rq := RqPush(s.rq, RQ_CAP, t).0))
  {
  }

  lemma PushRqTotal(s: Sched, t: Task)
    requires SchedInv(s)
    ensures var (rq, ok) := RqPush(s.rq, RQ_CAP, t); SchedInv(s.(rq := rq)) && Total(s.(rq := rq)) == Total(s) + When(ok, t)
  {
    hide Total, Bag, SchedInv;
    PushRqInv(s, t);
    RqQueueTotal(s, Priority(t), s.rq.queues[Priority(t)] + [t]);
    BagAppend(s.rq.queues[Priority(t)], t);
  }

  /** Replacing one queue exchanges its bag in the total. */
  lemma RqQueueTotal(s: Sched, i: nat, q: seq<Task>)
    requires i < |s.rq.queues|
    ensures Bag(s.rq.queues[i]) <= Total(s)
    ensures Total(s.(rq := s.rq.(queues := s.rq.queues[i := q]))) == Total(s) - Bag(s.rq.queues[i]) + Bag(q)
  {
    hide Bag, BagAll;
    BagAllUpdate(s.rq.queues, i, q);
  }

  lemma LqTotal(s: Sched, w: nat, q: seq<Task>)
    requires w < |s.lqs|
    ensures Bag(s.lqs[w]) <= Total(s)
    ensures Total(s.(lqs := s.lqs[w := q])) == Total(s) - Bag(s.lqs[w]) + Bag(q)
  {
    hide Bag, BagAll;
    BagAllUpdate(s.lqs, w, q);
  }

  lemma YieldConserves(s: Sched, t: Task, worker: int, maxYields: nat)
    requires SchedInv(s)
    ensures var (s', rc) := Yield(s, t, worker, maxYields);
      SchedInv(s') && |s'.lqs| == |s.lqs| && Total(s') == Total(s) + When(rc == GMK_OK, Yielded(t))
  {
    hide Bag;
    if HasLq(s, worker) && |s.lqs[worker]| < LQ_CAP { PushLqTotal(s, worker, Yielded(t)); }
    BagAppend(s.overflow, Yielded(t));
  }

  lemma PostConserves(s: Sched, t: Task)
    requires SchedInv(s)
    ensures var (s', ok) := Post(s, t); SchedInv(s') && |s'.lqs| == |s.lqs| && Total(s') == Total(s) + When(ok, t)
  {
    hide Bag, H.EvqInv, H.Push;
    if |s.evq| < EVQ_CAP {
      var e := H.NewEntry(t, s.evqSeq);
      H.PushKeeps(s.evq, t, s.evqSeq);
      BagOfPermutation(H.Push(s.evq, t, s.evqSeq), s.evq + [e]);
      assert |multiset(H.Push(s.evq, t, s.evqSeq))| == |s.evq| + 1;
      assert EventTasks(s.evq + [e]) == EventTasks(s.evq) + [e.task];
      BagAppend(EventTasks(s.evq), e.task);
      assert Unserial(e.task) == Unserial(t);
    }
  }

  /** The task an act leaves in the scheduler, if it is accepted. */
  ghost function Accepted(s: Sched, a: Act): multiset<Task>
    requires |s.rq.queues| == 4
  {
    match a
    case Submit(t, w) => When(Enqueue(s, t, w).1, t)
    case YieldTask(t, w, m) => When(Yield(s, t, w, m).1 == GMK_OK, Yielded(t))
    case PostEvent(t) => When(Post(s, t).1, t)
  }

  ghost function AcceptedAll(s: Sched, acts: seq<Act>): multiset<Task>
    requires |s.rq.queues| == 4
    decreases |acts|
  {
    if acts == [] then multiset{} else Accepted(s, acts[0]) + AcceptedAll(Perform(s, acts[0]), acts[1..])
  }

  lemma ActConserves(s: Sched, a: Act)
    requires SchedInv(s)
    ensures var s' := Perform(s, a); SchedInv(s') && |s'.lqs| == |s.lqs| && Total(s') == Total(s) + Accepted(s, a)
  {
    hide Total, SchedInv, Enqueue, Yield, Post;
    match a
    case Submit(t, w) => EnqueueConserves(s, t, w);
    case YieldTask(t, w, m) => YieldConserves(s, t, w, m);
    case PostEvent(t) => PostConserves(s, t);
  }

  lemma {:induction false} ActsConserve(s: Sched, acts: seq<Act>)
    requires SchedInv(s)
    ensures var s' := PerformAll(s, acts);
      SchedInv(s') && |s'.lqs| == |s.lqs| && Total(s') == Total(s) + AcceptedAll(s, acts)
    decreases |acts|
  {
    hide Total, SchedInv, Perform, Accepted;
    if acts != [] {
      ActConserves(s, acts[0]);
      ActsConserve(Perform(s, acts[0]), acts[1..]);
    }
  }

  lemma GatherLq(s: Sched, w: nat)
    requires SchedInv(s) && w < |s.lqs| && s.lqs[w] != []
    ensures var s' := s.(lqs := s.lqs[w := s.lqs[w][1..]]);
      SchedInv(s') && Unserial(s.lqs[w][0]) in Total(s) && Total(s') == Total(s) - multiset{Unserial(s.lqs[w][0])}
  {
    hide Total, Bag;
    BagFirst(s.lqs[w]);
    LqTotal(s, w, s.lqs[w][1..]);
  }

  lemma GatherOverflow(s: Sched)
    requires SchedInv(s) && s.overflow != []
    ensures var s' := s.(overflow := s.overflow[1..]);
      SchedInv(s') && Unserial(s.overflow[0]) in Total(s) && Total(s') == Total(s) - multiset{Unserial(s.overflow[0])}
  {
    BagFirst(s.overflow);
  }

  lemma RqServedTotal(s: Sched, i: nat)
    requires |s.rq.queues| == 4 && i < 4 && s.rq.queues[i] != []
    ensures var rq := s.rq.(queues := s.rq.queues[i := s.rq.queues[i][1..]]); var t := s.rq.queues[i][0];
      Unserial(t) in Total(s) && Total(s.(rq := rq)) == Total(s) - multiset{Unserial(t)}
  {
    hide Total, Bag;
    BagFirst(s.rq.queues[i]);
    RqQueueTotal(s, i, s.rq.queues[i][1..]);
  }

  lemma GatherRq(s: Sched)
    requires SchedInv(s)
    ensures var (rq, t) := RqPop(s.rq);
      && SchedInv(s.(rq := rq))
      && (t.Some? ==> Unserial(t.value) in Total(s) && Total(s.(rq := rq)) == Total(s) - multiset{Unserial(t.value)})
      && (t.None? ==> Total(s.(rq := rq)) == Total(s))
      && (t.None? <==> forall i :: 0 <= i < 4 ==> s.rq.queues[i] == [])
  {
    hide RqPop;
    RqPopServes(s.rq);
    if RqPop(s.rq).1.Some? { RqServedTotal(s, Served(s.rq)); }
  }

  lemma GatherTakesOne(s: Sched, w: nat)
    requires SchedInv(s) && w < |s.lqs|
    ensures var (s', t) := Gather(s, w);
      && SchedInv(s')
      && (t.Some? ==> Unserial(t.value) in Total(s) && Total(s') == Total(s) - multiset{Unserial(t.value)})
      && (t.None? <==> s.lqs[w] == [] && s.overflow == [] && forall i :: 0 <= i < 4 ==> s.rq.queues[i] == [])
      && (t.None? ==> Total(s') == Total(s) && s'.lqs == s.lqs && s'.evq == s.evq)
  {
    hide Total, SchedInv, RqPop;
    if s.lqs[w] != [] { GatherLq(s, w); }
    else if s.overflow != [] { GatherOverflow(s); }
    else { GatherRq(s); }
  }

  lemma RemovedBag(evq: seq<H.Entry>)
    requires H.EvqInv(evq) && evq != []
    ensures Bag(EventTasks(evq)) == Bag(EventTasks(H.Remove(evq))) + multiset{Unserial(evq[0].task)}
  {
    hide Bag, EventTasks, H.EvqInv, H.Remove;
    H.RemoveKeeps(evq);
    WithoutOne(evq, 0);
    assert evq[..0] + evq[1..] == evq[1..];
    Remains(multiset(H.Remove(evq)), multiset(evq[1..]), multiset(evq), evq[0]);
    BagOfPermutation(H.Remove(evq), evq[1..]);
  }

  lemma Remains(a: multiset<H.Entry>, b: multiset<H.Entry>, all: multiset<H.Entry>, e: H.Entry)
    requires a == all - multiset{e} && all == b + multiset{e}
    ensures a == b
  {
  }

  lemma TakeEvent(s: Sched)
    requires SchedInv(s) && s.evq != []
    ensures var s' := s.(evq := H.Remove(s.evq)); SchedInv(s') && Total(s) == Total(s') + When(true, s.evq[0].task)
  {
    hide Bag, EventTasks, H.EvqInv;
    H.RemoveKeeps(s.evq);
    RemovedBag(s.evq);
  }

  function DrainOne(s: Sched, w: nat): Sched
    requires |s.rq.queues| == 4 && s.evq != []
  {
    Enqueue(s.(evq := H.Remove(s.evq)), s.evq[0].task, w).0
  }

  lemma DrainOneConserves(s: Sched, w: nat)
    requires SchedInv(s) && s.evq != [] && w < |s.lqs| && |s.lqs[w]| < LQ_WATERMARK
    ensures var s' := DrainOne(s, w);
      && SchedInv(s') && Total(s') == Total(s)
      && s'.lqs == s.lqs[w := s.lqs[w] + [s.evq[0].task.(serial := s.nextSeq)]]
      && s'.evq == H.Remove(s.evq) && s'.rq == s.rq && s'.overflow == s.overflow
  {
    hide Total, SchedInv;
    TakeEvent(s);
    EnqueueConserves(s.(evq := H.Remove(s.evq)), s.evq[0].task, w);
  }

  /** Draining the EVQ into an LQ with room below the watermark loses nothing. */
  lemma {:induction false} DrainConserves(s: Sched, w: nat, tick: nat, n: nat)
    requires SchedInv(s) && w < |s.lqs| && |s.lqs[w]| + n <= LQ_WATERMARK
    ensures var (s', k) := DrainEvq(s, w, tick, n);
      && SchedInv(s') && Total(s') == Total(s) && |s'.lqs| == |s.lqs| && s'.rq == s.rq && s'.overflow == s.overflow
      && k <= n && s.lqs[w] <= s'.lqs[w] && |s'.lqs[w]| == |s.lqs[w]| + k && |s'.evq| + k == |s.evq|
      && (k < n ==> !H.IsDue(s'.evq, tick))
    decreases n
  {
    hide Total, SchedInv, Enqueue;
    if n > 0 && H.IsDue(s.evq, tick) {
      DrainOneConserves(s, w);
      assert DrainOne(s, w) == Enqueue(s.(evq := H.Remove(s.evq)), s.evq[0].task, w).0;
      DrainConserves(DrainOne(s, w), w, tick, n - 1);
    }
  }

  lemma RetryAccepted(s: Sched, t: Task)
    requires SchedInv(s)
    ensures Enqueue(s, t, -1).1 <==> |s.rq.queues[Priority(t)]| < RQ_CAP
  {
  }

  lemma DispatchConserves(s: Sched, run: HandlerRun)
    requires SchedInv(s)
    ensures var s2 := PerformAll(s, run.acts);
      && SchedInv(Dispatch(s, run)) && |Dispatch(s, run).lqs| == |s.lqs|
      && Total(Dispatch(s, run)) == Total(s) + AcceptedAll(s, run.acts)
           + When(run.rc == GMK_RETRY && |s2.rq.queues[Priority(run.left)]| < RQ_CAP, run.left)
  {
    hide Total, SchedInv, Enqueue, AcceptedAll, PerformAll;
    ActsConserve(s, run.acts);
    var s2 := PerformAll(s, run.acts);
    EnqueueConserves(s2, run.left, -1);
    RetryAccepted(s2, run.left);
  }

  /**
   One worker iteration loses no task: what is gone is the dispatched task, what is new is what its
   handler got accepted, and a retried task comes back unless the RQ is full.  The EVQ step loses nothing.
   */
  lemma IterateConserves(s: Sched, w: nat, tick: nat, handler: Task -> HandlerRun)
    requires SchedInv(s) && w < |s.lqs|
    ensures var (s1, t) := Gather(s, w);
      var s' := Iterate(s, w, tick, handler).0;
      && SchedInv(s') && |s'.lqs| == |s.lqs|
      && (t.None? ==> Total(s') == Total(s))
      && (t.Some? ==>
            var run := handler(t.value);
            var s2 := PerformAll(s1, run.acts);
            && Unserial(t.value) in Total(s)
            && Total(s') == Total(s) - multiset{Unserial(t.value)} + AcceptedAll(s1, run.acts)
                            + When(run.rc == GMK_RETRY && |s2.rq.queues[Priority(run.left)]| < RQ_CAP, run.left))
  {
    hide Total, SchedInv, Gather, DrainEvq, Dispatch, AcceptedAll, PerformAll, When;
    GatherTakesOne(s, w);
    var (s1, t) := Gather(s, w);
    if t.Some? {
      DispatchConserves(s1, handler(t.value));
    } else {
      DrainConserves(s1, w, tick, DRAIN_LIMIT);
    }
  }

  /** A parked worker had nothing to do: its LQ, overflow and RQ were empty and no event was due. */
  lemma ParkOnlyWhenIdle(s: Sched, w: nat, tick: nat, handler: Task -> HandlerRun)
    requires SchedInv(s) && w < |s.lqs|
    ensures !Iterate(s, w, tick, handler).1 <==>
      && s.lqs[w] == [] && s.overflow == [] && (forall i :: 0 <= i < 4 ==> s.rq.queues[i] == [])
      && forall e :: e in s.evq ==> H.Tick(e.task) > tick
  {
    GatherTakesOne(s, w);
    H.RefusedIffNoneDue(s.evq, tick);
  }
}
