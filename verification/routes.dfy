/**
 Where a task goes: the exact effect of every scheduler operation (src/enqueue.c, src/worker.c,
 src/sched_evq.c), queue by queue, in terms of what a caller can see before the call.
 */
module Routes {
  import opened Words
  import opened Tasks
  import opened Options
  import opened ReadyQueue
  import opened Scheduler
  import H = EventHeap

  /** The worker exists and its LQ holds fewer than n tasks. */
  predicate Room(s: Sched, worker: int, n: nat) {
    0 <= worker < |s.lqs| && |s.lqs[worker]| < n
  }

  /** The LQs are as before, but for x at the end of the worker's if `there`. */
  ghost predicate LqsGrown(s: Sched, s': Sched, there: bool, worker: int, x: Task) {
    |s'.lqs| == |s.lqs| && forall w :: 0 <= w < |s.lqs| ==> s'.lqs[w] == if there && w == worker then s.lqs[w] + [x] else s.lqs[w]
  }

  /**
   _gmk_enqueue: the task, numbered, comes last in its worker's LQ when that is below the watermark, else
   last in the RQ of its priority when that has room; nothing else changes but the next number.
   */
  ghost predicate Enqueued(s: Sched, t: Task, worker: int, s': Sched, ok: bool)
    requires |s.rq.queues| == 4
  {
    var x, p, local := t.(serial := s.nextSeq), Priority(t), Room(s, worker, LQ_WATERMARK);
    && (ok <==> local || |s.rq.queues[p]| < RQ_CAP)
    && LqsGrown(s, s', local, worker, x)
    && |s'.rq.queues| == 4 && s'.rq.counters == s.rq.counters
    && (forall i :: 0 <= i < 4 ==> s'.rq.queues[i] == if ok && !local && i == p then s.rq.queues[i] + [x] else s.rq.queues[i])
    && s'.overflow == s.overflow && s'.evq == s.evq && s'.evqSeq == s.evqSeq && s'.nextSeq == Wrap(s.nextSeq + 1)
  }

  lemma EnqueueLands(s: Sched, t: Task, worker: int)
    requires |s.rq.queues| == 4
    ensures var (s', ok) := Enqueue(s, t, worker); Enqueued(s, t, worker, s', ok)
  {
  }

  /**
   _gmk_yield: past the limit the task goes nowhere; else, with its count raised, it comes last in its
   worker's LQ when that is not full, else last in the overflow bucket when that has room.
   */
  ghost predicate YieldedTo(s: Sched, t: Task, worker: int, maxYields: nat, s': Sched, rc: int) {
    var x := t.(yieldCount := (t.yieldCount + 1) % 0x1_0000);
    var tired := x.yieldCount > (if maxYields == 0 then DEFAULT_MAX_YIELDS else maxYields);
    var local := Room(s, worker, LQ_CAP);
    && (rc == YIELD_LIMIT <==> tired)
    && (rc == YIELD_OVERFLOW <==> !tired && !local && |s.overflow| >= OVERFLOW_CAP)
    && (rc == GMK_OK <==> !tired && (local || |s.overflow| < OVERFLOW_CAP))
    && LqsGrown(s, s', rc == GMK_OK && local, worker, x)
    && s'.overflow == (if rc == GMK_OK && !local then s.overflow + [x] else s.overflow)
    && s'.rq == s.rq && s'.evq == s.evq && s'.nextSeq == s.nextSeq && s'.evqSeq == s.evqSeq
  }

  lemma YieldLands(s: Sched, t: Task, worker: int, maxYields: nat)
    ensures var (s', rc) := Yield(s, t, worker, maxYields); YieldedTo(s, t, worker, maxYields, s', rc)
  {
  }

  /** gmk_evq_push on the scheduler: refused exactly when full, else one more event under the next event number. */
  ghost predicate Posted(s: Sched, t: Task, s': Sched, ok: bool) {
    && (ok <==> |s.evq| < EVQ_CAP)
    && s'.lqs == s.lqs && s'.overflow == s.overflow && s'.rq == s.rq && s'.nextSeq == s.nextSeq
    && s'.evqSeq == (if ok then Wrap(s.evqSeq + 1) else s.evqSeq)
    && multiset(s'.evq) == multiset(s.evq) + (if ok then multiset{H.Entry(H.Key(t, s.evqSeq), t.(serial := s.evqSeq))} else multiset{})
  }

  lemma PostLands(s: Sched, t: Task)
    requires SchedInv(s)
    ensures var (s', ok) := Post(s, t); Posted(s, t, s', ok)
  {
    hide H.EvqInv, H.Push, H.Key;
    H.PushKeeps(s.evq, t, s.evqSeq);
  }

  /**
   The order in which a worker looks for work: its own LQ, then the overflow bucket, then the RQ.  A later
   queue is touched only when the earlier ones are empty.
   */
  ghost predicate TakenInOrder(s: Sched, w: nat, s': Sched, t: Option<Task>)
    requires w < |s.lqs| && |s.rq.queues| == 4 && |s.rq.counters| == 4
  {
    && |s'.lqs| == |s.lqs| && (forall v :: 0 <= v < |s.lqs| && v != w ==> s'.lqs[v] == s.lqs[v])
    && s'.evq == s.evq && s'.nextSeq == s.nextSeq && s'.evqSeq == s.evqSeq
    && (s.lqs[w] != [] ==>
          t == Some(s.lqs[w][0]) && s'.lqs[w] == s.lqs[w][1..] && s'.overflow == s.overflow && s'.rq == s.rq)
    && (s.lqs[w] == [] ==> s'.lqs[w] == [])
    && (s.lqs[w] == [] && s.overflow != [] ==>
          t == Some(s.overflow[0]) && s'.overflow == s.overflow[1..] && s'.rq == s.rq)
    && (s.lqs[w] == [] && s.overflow == [] ==> s'.overflow == [] && PoppedByWeight(s.rq, s'.rq, t))
  }

  lemma GatherInOrder(s: Sched, w: nat)
    requires w < |s.lqs| && |s.rq.queues| == 4 && |s.rq.counters| == 4
    ensures var (s', t) := Gather(s, w); TakenInOrder(s, w, s', t)
  {
    hide RqPop, PoppedByWeight;
    PopIsWeighted(s.rq);
  }

  /** After the handler's acts, a retry goes to the RQ of its priority; any other return code adds nothing. */
  lemma DispatchRetries(s: Sched, run: HandlerRun)
    requires |s.rq.queues| == 4
    ensures var s1 := PerformAll(s, run.acts);
      && |s1.rq.queues| == 4
      && (run.rc == GMK_RETRY ==> exists ok :: Enqueued(s1, run.left, -1, Dispatch(s, run), ok))
      && (run.rc != GMK_RETRY ==> Dispatch(s, run) == s1)
  {
    hide PerformAll, Enqueue, Enqueued;
    var s1 := PerformAll(s, run.acts);
    EnqueueLands(s1, run.left, -1);
    if run.rc == GMK_RETRY { assert Enqueued(s1, run.left, -1, Dispatch(s, run), Enqueue(s1, run.left, -1).1); }
  }

  /** The acts of a handler happen one after the other, each as its own operation says. */
  ghost predicate Acted(s: Sched, a: Act, s': Sched)
    requires |s.rq.queues| == 4
  {
    match a
    case Submit(t, w) => exists ok :: Enqueued(s, t, w, s', ok)
    case YieldTask(t, w, m) => exists rc :: YieldedTo(s, t, w, m, s', rc)
    case PostEvent(t) => exists ok :: Posted(s, t, s', ok)
  }

  lemma ActLands(s: Sched, a: Act)
    requires SchedInv(s)
    ensures Acted(s, a, Perform(s, a))
  {
    hide SchedInv, Enqueue, Yield, Post, Enqueued, YieldedTo, Posted;
    match a
    case Submit(t, w) => EnqueueLands(s, t, w); assert Enqueued(s, t, w, Perform(s, a), Enqueue(s, t, w).1);
    case YieldTask(t, w, m) => YieldLands(s, t, w, m); assert YieldedTo(s, t, w, m, Perform(s, a), Yield(s, t, w, m).1);
    case PostEvent(t) => PostLands(s, t); assert Posted(s, t, Perform(s, a), Post(s, t).1);
  }

  ghost predicate ActedAll(s: Sched, acts: seq<Act>, s': Sched)
    decreases |acts|
  {
    if acts == [] then s' == s
    else |s.rq.queues| == 4 && exists s1 :: Acted(s, acts[0], s1) && ActedAll(s1, acts[1..], s')
  }

  lemma {:induction false} ActsLand(s: Sched, acts: seq<Act>)
    requires SchedInv(s)
    ensures ActedAll(s, acts, PerformAll(s, acts))
    decreases |acts|
  {
    hide SchedInv, Perform, Acted, Total;
    if acts != [] {
      ActLands(s, acts[0]);
      ActConserves(s, acts[0]);
      ActsLand(Perform(s, acts[0]), acts[1..]);
      assert Acted(s, acts[0], Perform(s, acts[0])) && ActedAll(Perform(s, acts[0]), acts[1..], PerformAll(s, acts));
    }
  }

  /** A dispatch: the acts in order, then the retry. */
  ghost predicate Dispatched(s: Sched, run: HandlerRun, s': Sched) {
    exists s1 :: ActedAll(s, run.acts, s1) && |s1.rq.queues| == 4
      && if run.rc == GMK_RETRY then exists ok :: Enqueued(s1, run.left, -1, s', ok) else s' == s1
  }

  lemma DispatchLands(s: Sched, run: HandlerRun)
    requires SchedInv(s)
    ensures Dispatched(s, run, Dispatch(s, run))
  {
    hide SchedInv, PerformAll, ActedAll, Enqueued, Dispatch;
    ActsLand(s, run.acts);
    DispatchRetries(s, run);
    var s1 := PerformAll(s, run.acts);
    assert ActedAll(s, run.acts, s1) && |s1.rq.queues| == 4;
  }

  function Least(a: nat, b: nat): nat { if a <= b then a else b }

  /** The first k entries of out as tasks numbered from n on. */
  function NumberedFrom(out: seq<H.Entry>, k: nat, n: nat): seq<Task>
    requires k <= |out|
  {
    seq(k, i requires 0 <= i < k => out[i].task.(serial := Wrap(n + i)))
  }

  /** The EVQ step: due events, least key first, at most n of them, come last in the worker's own LQ. */
  ghost predicate Drained(s: Sched, w: nat, tick: nat, n: nat, s': Sched, k: nat)
    requires w < |s.lqs|
  {
    var (out, rest) := H.Drain(s.evq, tick);
    && k == Least(n, |out|)
    && |s'.lqs| == |s.lqs| && (forall v :: 0 <= v < |s.lqs| && v != w ==> s'.lqs[v] == s.lqs[v])
    && s'.lqs[w] == s.lqs[w] + NumberedFrom(out, k, s.nextSeq)
    && s'.overflow == s.overflow && s'.rq == s.rq && s'.evqSeq == s.evqSeq
    && H.Drain(s'.evq, tick) == (out[k..], rest)
  }

  lemma WrapTwice(n: nat, i: nat)
    ensures Wrap(Wrap(n + 1) + i) == Wrap(n + (i + 1))
  {
    WrapAdd(n + 1, i);
  }

  lemma {:induction false} DrainDelivers(s: Sched, w: nat, tick: nat, n: nat)
    requires SchedInv(s) && w < |s.lqs| && |s.lqs[w]| + n <= LQ_WATERMARK
    ensures var (s', k) := DrainEvq(s, w, tick, n); Drained(s, w, tick, n, s', k)
    decreases n
  {
    hide SchedInv, Enqueue, H.Remove, Total;
    var (out, rest) := H.Drain(s.evq, tick);
    if n > 0 && H.IsDue(s.evq, tick) {
      hide H.IsDue, NumberedFrom;
      DrainOneConserves(s, w);
      var s1 := DrainOne(s, w);
      NextNumber(s, w);
      DrainDelivers(s1, w, tick, n - 1);
      var (s', k) := DrainEvq(s1, w, tick, n - 1);
      var out1 := H.Drain(s1.evq, tick).0;
      assert out == [s.evq[0]] + out1;
      WrapSelf(s);
      OneMoreNumbered(s.evq[0], out1, k, s.nextSeq);
      assert out[k + 1..] == out1[k..];
    } else {
      assert NumberedFrom(out, 0, s.nextSeq) == [];
      assert out[0..] == out;
    }
  }

  lemma OneMoreNumbered(e: H.Entry, out: seq<H.Entry>, k: nat, n: nat)
    requires k <= |out| && n < TWO32
    ensures NumberedFrom([e] + out, k + 1, n) == [e.task.(serial := n)] + NumberedFrom(out, k, Wrap(n + 1))
  {
    assert Wrap(n) == n;
    var q, all := NumberedFrom(out, k, Wrap(n + 1)), NumberedFrom([e] + out, k + 1, n);
    forall i | 0 <= i < k ensures q[i] == all[i + 1] { WrapTwice(n, i); }
  }

  lemma NextNumber(s: Sched, w: nat)
    requires SchedInv(s) && s.evq != [] && w < |s.lqs| && |s.lqs[w]| < LQ_WATERMARK
    ensures DrainOne(s, w).nextSeq == Wrap(s.nextSeq + 1) && DrainOne(s, w).evqSeq == s.evqSeq
    ensures forall v :: 0 <= v < |s.lqs| && v != w ==> DrainOne(s, w).lqs[v] == s.lqs[v]
  {
    hide H.Remove, SchedInv;
  }

  lemma WrapSelf(s: Sched)
    requires SchedInv(s)
    ensures s.nextSeq < TWO32
  {
  }

  /**
   One worker iteration: the task found first goes to the handler, whose acts and retry follow; without a
   task, due events move to the worker's LQ, and the worker parks exactly if there are none.
   */
  ghost predicate Passed(s: Sched, w: nat, tick: nat, handler: Task -> HandlerRun, s': Sched, worked: bool)
    requires w < |s.lqs| && |s.rq.queues| == 4 && |s.rq.counters| == 4
  {
    exists s1, t: Option<Task> :: TakenInOrder(s, w, s1, t) && |s1.lqs| == |s.lqs|
      && if t.Some? then worked && Dispatched(s1, handler(t.value), s')
         else exists k: nat :: Drained(s1, w, tick, DRAIN_LIMIT, s', k) && (worked <==> k > 0)
  }

  lemma IterateLands(s: Sched, w: nat, tick: nat, handler: Task -> HandlerRun)
    requires SchedInv(s) && w < |s.lqs|
    ensures var (s', worked) := Iterate(s, w, tick, handler); Passed(s, w, tick, handler, s', worked)
  {
    hide SchedInv, Gather, DrainEvq, Dispatch, TakenInOrder, Dispatched, Drained, Total;
    GatherInOrder(s, w);
    GatherTakesOne(s, w);
    var (s1, t) := Gather(s, w);
    var (s', worked) := Iterate(s, w, tick, handler);
    if t.Some? {
      DispatchLands(s1, handler(t.value));
    } else {
      DrainDelivers(s1, w, tick, DRAIN_LIMIT);
      assert Drained(s1, w, tick, DRAIN_LIMIT, s', DrainEvq(s1, w, tick, DRAIN_LIMIT).1);
    }
    assert TakenInOrder(s, w, s1, t) && |s1.lqs| == |s.lqs|;
  }
}
