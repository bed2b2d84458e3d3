/**
 Channels (src/chan.c) with refcounted payloads (src/alloc.c) and the release done by workers
 (src/worker.c), one call at a time, over the scheduler of Scheduler.
 */
module Channels {
  import opened Words
  import opened Tasks
  import opened Scheduler

  const MAX_CHAN_SUBS: nat := 32
  const PRIORITY_RESERVE_PCT: nat := 10
  const SYS_DROPPED: nat := 1

  const ERR_NOMEM: int := -1
  const CHAN_FULL: int := -2
  const ERR_INVALID: int := -4
  const ERR_EXISTS: int := -6
  const CHAN_CLOSED: int := -7
  const CHAN_ALREADY_BOUND: int := -12

  datatype Mode = P2P | Fanout
  datatype Sub = Sub(moduleId: nat, worker: int, active: bool)
  datatype Chan = Chan(mode: Mode, lossless: bool, cap: nat, ring: seq<Task>, subs: seq<Sub>, open: bool)

  /**
   `refs` holds the refcount of every allocated payload; `fault` records a retain or release of a
   payload that is not allocated.  The rest is history: references a producer holds and has not
   emitted, references nobody will release, and how often each payload was allocated and freed.
   */
  datatype World = World(
    sched: Sched, chans: seq<Chan>, refs: map<nat, nat>, fault: bool,
    held: multiset<nat>, leaked: multiset<nat>, allocs: multiset<nat>, frees: multiset<nat>)

  predicate Same(w: World, r: World) {
    |r.sched.rq.queues| == |w.sched.rq.queues| && |r.chans| == |w.chans|
  }

  // ---- payload references -------------------------------------------------------

  /** gmk_payload_alloc returning address p. */
  function AllocPayload(w: World, p: nat): World {
    w.(refs := w.refs[p := 1], held := w.held + multiset{p}, allocs := w.allocs + multiset{p})
  }

  function Retain(w: World, p: nat): World {
    if p !in w.refs then w.(fault := true) else w.(refs := w.refs[p := w.refs[p] + 1])
  }

  function Release(w: World, p: nat): World {
    if p !in w.refs then w.(fault := true)
    else if w.refs[p] == 1 then w.(refs := w.refs - {p}, frees := w.frees + multiset{p})
    else if w.refs[p] == 0 then w.(fault := true)
    else w.(refs := w.refs[p := w.refs[p] - 1])
  }

  function Retains(w: World, p: nat, n: nat): (r: World)
    ensures Same(w, r)
    decreases n
  {
    if n == 0 then w else Retains(Retain(w, p), p, n - 1)
  }

  function Leak(w: World, t: Task): World {
    if HasRefcount(t) then w.(leaked := w.leaked + multiset{t.payload}) else w
  }

  // ---- channel operations --------------------------------------------------------

  function SetRing(w: World, c: nat, q: seq<Task>): (r: World)
    requires c < |w.chans|
    ensures Same(w, r)
  {
    w.(chans := w.chans[c := w.chans[c].(ring := q)])
  }

  function DeadLetter(w: World, t: Task): (r: World)
    ensures Same(w, r)
  {
    if SYS_DROPPED < |w.chans| && w.chans[SYS_DROPPED].open && |w.chans[SYS_DROPPED].ring| < w.chans[SYS_DROPPED].cap
    then SetRing(w, SYS_DROPPED, w.chans[SYS_DROPPED].ring + [t]) else w
  }

  function Numbered(w: World, t: Task): Task {
    t.(serial := w.sched.nextSeq)
  }

  /** One fan-out copy: enqueue it, or drop or dead-letter it and give its reference back. */
  function CopyTo(w: World, t: Task, lossless: bool, sub: Sub): (r: World)
    requires |w.sched.rq.queues| == 4
    ensures Same(w, r)
  {
    var (s, ok) := Enqueue(w.sched, t, sub.worker);
    var w1 := w.(sched := s);
    if ok then w1
    else
      var w2 := if lossless then DeadLetter(w1, Numbered(w, t)) else w1;
      if HasRefcount(t) then Release(w2, t.payload) else w2
  }

  function CopyAll(w: World, t: Task, lossless: bool, subs: seq<Sub>): (r: World)
    requires |w.sched.rq.queues| == 4
    ensures Same(w, r)
    decreases |subs|
  {
    if subs == [] then w
    else CopyAll(if subs[0].active then CopyTo(w, t, lossless, subs[0]) else w, t, lossless, subs[1..])
  }

  function Active(subs: seq<Sub>): nat {
    if subs == [] then 0 else (if subs[0].active then 1 else 0) + Active(subs[1..])
  }

  /** Deliver one message that was popped from the ring of a channel with subscribers. */
  function Deliver(w: World, ch: Chan, t: Task): (r: World)
    requires |w.sched.rq.queues| == 4 && ch.subs != []
    ensures Same(w, r)
  {
    if ch.mode.P2P? then
      if !ch.subs[0].active then Leak(w, t)
      else
        var (s, ok) := Enqueue(w.sched, t, ch.subs[0].worker);
        var w1 := w.(sched := s);
        if ok then w1 else Leak(DeadLetter(w1, Numbered(w, t)), t)
    else
      var n := Active(ch.subs);
      if n == 0 then Leak(w, t)
      else CopyAll(if HasRefcount(t) then Retains(w, t.payload, n - 1) else w, t, ch.lossless, ch.subs)
  }

  /** gmk_chan_drain of at most n messages. */
  function Drain(w: World, c: nat, n: nat): (r: World)
    requires |w.sched.rq.queues| == 4 && c < |w.chans|
    ensures Same(w, r)
    decreases n
  {
    if n == 0 || w.chans[c].subs == [] || w.chans[c].ring == [] then w
    else
      var ch := w.chans[c];
      Drain(Deliver(SetRing(w, c, ch.ring[1..]), ch, ch.ring[0]), c, n - 1)
  }

  /** The fill level from which only priority 0 is buffered. */
  function Threshold(cap: nat): int {
    cap - Wrap(cap * PRIORITY_RESERVE_PCT) / 100
  }

  function Tagged(t: Task, c: nat): Task {
    t.(channel := c, flags := Or(t.flags, CHANNEL_MSG))
  }

  function Own(w: World, t: Task): World {
    if HasRefcount(t) then w.(held := w.held - multiset{t.payload}) else w
  }

  /** The ring part of emit: buffer the message, and drain it at once on a bound P2P channel. */
  function Buffer(w: World, c: nat, t: Task, m: Task): (r: (World, int))
    requires |w.sched.rq.queues| == 4 && c < |w.chans|
    ensures Same(w, r.0)
  {
    var ch := w.chans[c];
    if |ch.ring| >= ch.cap then (w, CHAN_FULL)
    else
      var w1 := Own(SetRing(w, c, ch.ring + [m]), t);
      var w2 := if c == SYS_DROPPED then Leak(w1, t) else w1;
      (if ch.mode.P2P? then Drain(w2, c, 1) else w2, GMK_OK)
  }

  /** gmk_chan_emit; on acceptance the producer's reference travels with the message. */
  function Emit(w: World, c: nat, t: Task): (r: (World, int))
    requires |w.sched.rq.queues| == 4
    ensures Same(w, r.0)
  {
    if c >= |w.chans| then (w, ERR_INVALID)
    else
      var ch := w.chans[c];
      var m := Tagged(t, c);
      if !ch.open then (w, CHAN_CLOSED)
      else if |ch.ring| >= Threshold(ch.cap) && Priority(m) != 0 then (w, CHAN_FULL)
      else if ch.mode.P2P? && |ch.subs| == 1 && ch.subs[0].active then
        // fast path: straight to the subscriber's queue
        var (s, ok) := Enqueue(w.sched, m, ch.subs[0].worker);
        var w1 := w.(sched := s);
        if ok then (Own(w1, t), GMK_OK) else Buffer(w1, c, t, Numbered(w, m))
      else Buffer(w, c, t, m)
  }

  /** A ring of one slot takes a second element instead of refusing it, so no critical message may be emitted to it when full. */
  predicate RingMayTake(w: World, c: nat, t: Task) {
    c < |w.chans| && w.chans[c].cap == 1 && Priority(t) == 0 ==> w.chans[c].ring == []
  }

  /** gmk_chan_sub. */
  function Subscribe(w: World, c: nat, moduleId: nat, worker: int): (World, int) {
    if c >= |w.chans| then (w, ERR_INVALID)
    else
      var ch := w.chans[c];
      if !ch.open then (w, CHAN_CLOSED)
      else if ch.mode.P2P? && |ch.subs| >= 1 then (w, CHAN_ALREADY_BOUND)
      else if |ch.subs| >= MAX_CHAN_SUBS then (w, CHAN_FULL)
      else (w.(chans := w.chans[c := ch.(subs := ch.subs + [Sub(moduleId, worker, true)])]), GMK_OK)
  }

  // ---- counting references ---------------------------------------------------------

  predicate Refers(t: Task, p: nat) {
    HasRefcount(t) && t.payload == p
  }

  function One(b: bool): nat {
    if b then 1 else 0
  }

  /** How many tasks of m carry a reference to payload p. */
  ghost function Rc(m: multiset<Task>, p: nat): nat
    decreases |m|
  {
    if |m| == 0 then 0
    else
      var t :| t in m;
      One(Refers(t, p)) + Rc(m - multiset{t}, p)
  }

  lemma RcStep(m: multiset<Task>, p: nat) returns (x: Task)
    requires |m| > 0
    ensures x in m && Rc(m, p) == One(Refers(x, p)) + Rc(m - multiset{x}, p)
  {
    hide Refers;
    x :| x in m && Rc(m, p) == One(Refers(x, p)) + Rc(m - multiset{x}, p);
  }

  lemma {:induction false} RcWithout(m: multiset<Task>, t: Task, p: nat)
    requires t in m
    ensures Rc(m, p) == One(Refers(t, p)) + Rc(m - multiset{t}, p)
    decreases |m|
  {
    var x := RcStep(m, p);
    hide Rc, Refers;
    if x != t {
      var mx, mt := m - multiset{x}, m - multiset{t};
      assert mx - multiset{t} == mt - multiset{x};
      RcWithout(mx, t, p);
      RcWithout(mt, x, p);
    }
  }

  lemma RcWith(m: multiset<Task>, t: Task, p: nat)
    ensures Rc(m + multiset{t}, p) == Rc(m, p) + One(Refers(t, p))
  {
    RcWithout(m + multiset{t}, t, p);
    assert m + multiset{t} - multiset{t} == m;
  }

  ghost predicate NoRefs(m: multiset<Task>) {
    forall t :: t in m ==> !HasRefcount(t)
  }

  lemma {:induction false} RcPlain(m: multiset<Task>, a: multiset<Task>, p: nat)
    requires NoRefs(a)
    ensures Rc(m + a, p) == Rc(m, p)
    decreases |a|
  {
    if |a| == 0 {
      assert m + a == m;
    } else {
      var t :| t in a;
      RcPlain(m, a - multiset{t}, p);
      RcWith(m + (a - multiset{t}), t, p);
      assert m + (a - multiset{t}) + multiset{t} == m + a;
    }
  }

  function Rings(chans: seq<Chan>): seq<seq<Task>> {
    seq(|chans|, i requires 0 <= i < |chans| => if i == SYS_DROPPED then [] else chans[i].ring)
  }

  /** Everything that must hold a reference: scheduled tasks and buffered messages, but not dead letters. */
  ghost function Counted(w: World): multiset<Task> {
    Total(w.sched) + BagAll(Rings(w.chans))
  }

  function Count(w: World, p: nat): nat {
    if p in w.refs then w.refs[p] else 0
  }

  /** The refcount of p is the number of references to it; `extra` are references in the hands of the running code. */
  ghost predicate Balanced(w: World, extra: multiset<nat>, p: nat) {
    && Count(w, p) == Rc(Counted(w), p) + w.held[p] + w.leaked[p] + extra[p]
    && (p in w.refs ==> w.refs[p] > 0)
    && w.allocs[p] == w.frees[p] + One(p in w.refs)
  }

  ghost predicate Exact(w: World, extra: multiset<nat>) {
    !w.fault && forall p: nat :: Balanced(w, extra, p)
  }

  /** The system channel exists and nobody subscribes to it. */
  ghost predicate WorldInv(w: World)
    ensures WorldInv(w) ==> |w.sched.rq.queues| == 4 && |w.sched.rq.counters| == 4
  {
    && SchedInv(w.sched) && |w.chans| >= 2 && w.chans[SYS_DROPPED].subs == [] && w.chans[SYS_DROPPED].mode.Fanout?
    && forall c :: 0 <= c < |w.chans| ==> |w.chans[c].ring| <= w.chans[c].cap
  }

  function Held(t: Task): multiset<nat> {
    if HasRefcount(t) then multiset{t.payload} else multiset{}
  }

  // ---- each step keeps the books ----------------------------------------------------

  lemma RetainExact(w: World, extra: multiset<nat>, p: nat)
    requires Exact(w, extra) && p in w.refs
    ensures Exact(Retain(w, p), extra + multiset{p})
  {
    hide Rc, Total, BagAll;
    var w' := Retain(w, p);
    forall q: nat ensures Balanced(w', extra + multiset{p}, q) { assert Balanced(w, extra, q); assert Counted(w') == Counted(w); }
  }

  /** A release frees the payload exactly when it gives back the last reference. */
  lemma ReleaseExact(w: World, extra: multiset<nat>, p: nat)
    requires Exact(w, extra + multiset{p})
    ensures Exact(Release(w, p), extra)
    ensures p !in Release(w, p).refs <==> Rc(Counted(w), p) + w.held[p] + w.leaked[p] + extra[p] == 0
  {
    hide Rc, Total, BagAll;
    var w' := Release(w, p);
    assert Counted(w') == Counted(w);
    assert Balanced(w, extra + multiset{p}, p);
    forall q: nat ensures Balanced(w', extra, q) { assert Balanced(w, extra + multiset{p}, q); }
  }

  lemma ReleaseInv(w: World, p: nat)
    requires WorldInv(w)
    ensures WorldInv(Release(w, p))
  {
  }

  lemma OwedIsAllocated(w: World, extra: multiset<nat>, p: nat)
    requires Exact(w, extra) && p in extra
    ensures p in w.refs
  {
    assert Balanced(w, extra, p);
  }

  lemma {:induction false} RetainsExact(w: World, extra: multiset<nat>, p: nat, n: nat)
    requires Exact(w, extra) && p in extra
    ensures Exact(Retains(w, p, n), extra[p := extra[p] + n])
    ensures Retains(w, p, n).sched == w.sched && Retains(w, p, n).chans == w.chans
    decreases n
  {
    hide Exact;
    if n == 0 {
      assert extra[p := extra[p]] == extra;
    } else {
      OwedIsAllocated(w, extra, p);
      RetainExact(w, extra, p);
      var e := extra + multiset{p};
      RetainsExact(Retain(w, p), e, p, n - 1);
      assert e[p := e[p] + (n - 1)] == extra[p := extra[p] + n];
    }
  }

  /** A task that enters the counted places takes over one reference. */
  lemma EnterExact(w: World, w': World, extra: multiset<nat>, t: Task)
    requires Exact(w, extra + Held(t))
    requires w' == w.(sched := w'.sched, chans := w'.chans) && Counted(w') == Counted(w) + multiset{Unserial(t)}
    ensures Exact(w', extra)
  {
    hide Rc, Total, BagAll;
    forall p: nat ensures Balanced(w', extra, p) {
      assert Balanced(w, extra + Held(t), p);
      RcWith(Counted(w), Unserial(t), p);
    }
  }

  /** A task that leaves them hands its reference to the running code. */
  lemma LeaveExact(w: World, w': World, extra: multiset<nat>, t: Task)
    requires Exact(w, extra) && Unserial(t) in Counted(w)
    requires w' == w.(sched := w'.sched, chans := w'.chans) && Counted(w') == Counted(w) - multiset{Unserial(t)}
    ensures Exact(w', extra + Held(t))
  {
    hide Rc, Total, BagAll;
    forall p: nat ensures Balanced(w', extra + Held(t), p) {
      assert Balanced(w, extra, p);
      RcWithout(Counted(w), Unserial(t), p);
    }
  }

  lemma PlainExact(w: World, w': World, extra: multiset<nat>, a: multiset<Task>)
    requires Exact(w, extra) && NoRefs(a)
    requires w' == w.(sched := w'.sched, chans := w'.chans) && Counted(w') == Counted(w) + a
    ensures Exact(w', extra)
  {
    hide Rc, Total, BagAll;
    forall p: nat ensures Balanced(w', extra, p) {
      assert Balanced(w, extra, p);
      RcPlain(Counted(w), a, p);
    }
  }

  lemma LeakExact(w: World, extra: multiset<nat>, t: Task)
    requires Exact(w, extra + Held(t))
    ensures Exact(Leak(w, t), extra)
  {
    hide Rc, Total, BagAll;
    var w' := Leak(w, t);
    assert Counted(w') == Counted(w);
    forall p: nat ensures Balanced(w', extra, p) { assert Balanced(w, extra + Held(t), p); }
  }

  lemma BagAllSwap(qs: seq<seq<Task>>, c: nat, q: seq<Task>)
    requires c < |qs|
    ensures Bag(qs[c]) <= BagAll(qs) && BagAll(qs[c := q]) == BagAll(qs) - Bag(qs[c]) + Bag(q)
  {
    BagAllUpdate(qs, c, q);
  }

  lemma SetRingCounted(w: World, c: nat, q: seq<Task>)
    requires c < |w.chans|
    ensures c == SYS_DROPPED ==> Counted(SetRing(w, c, q)) == Counted(w)
    ensures c != SYS_DROPPED ==> Bag(w.chans[c].ring) <= Counted(w)
    ensures c != SYS_DROPPED ==> Counted(SetRing(w, c, q)) == Counted(w) - Bag(w.chans[c].ring) + Bag(q)
  {
    hide Bag, Total;
    var w' := SetRing(w, c, q);
    if c == SYS_DROPPED {
      assert Rings(w'.chans) == Rings(w.chans);
    } else {
      assert Rings(w'.chans) == Rings(w.chans)[c := q];
      BagAllSwap(Rings(w.chans), c, q);
    }
  }

  lemma EnqueueExact(w: World, extra: multiset<nat>, t: Task, worker: int)
    requires WorldInv(w) && Exact(w, extra + Held(t))
    ensures var (s, ok) := Enqueue(w.sched, t, worker); var w1 := w.(sched := s);
      WorldInv(w1) && Exact(w1, if ok then extra else extra + Held(t))
  {
    hide Total, BagAll, Enqueue, Balanced, SchedInv;
    EnqueueConserves(w.sched, t, worker);
    var (s, ok) := Enqueue(w.sched, t, worker);
    var w1 := w.(sched := s);
    if ok {
      EnterExact(w, w1, extra, t);
    } else {
      assert Counted(w1) == Counted(w) + multiset{};
      PlainExact(w, w1, extra + Held(t), multiset{});
    }
  }

  lemma DeadLetterExact(w: World, extra: multiset<nat>, t: Task)
    requires WorldInv(w) && Exact(w, extra)
    ensures WorldInv(DeadLetter(w, t)) && Exact(DeadLetter(w, t), extra)
  {
    hide Exact, SchedInv, Counted;
    var w' := DeadLetter(w, t);
    SetRingCounted(w, SYS_DROPPED, w.chans[SYS_DROPPED].ring + [t]);
    assert Counted(w') == Counted(w) + multiset{};
    PlainExact(w, w', extra, multiset{});
  }

  lemma CopyToExact(w: World, extra: multiset<nat>, t: Task, lossless: bool, sub: Sub)
    requires WorldInv(w) && Exact(w, extra + Held(t))
    ensures WorldInv(CopyTo(w, t, lossless, sub)) && Exact(CopyTo(w, t, lossless, sub), extra)
  {
    hide Exact, WorldInv, Enqueue, DeadLetter, Release;
    EnqueueExact(w, extra, t, sub.worker);
    var (s, ok) := Enqueue(w.sched, t, sub.worker);
    if !ok {
      var w1 := w.(sched := s);
      DeadLetterExact(w1, extra + Held(t), Numbered(w, t));
      var w2 := if lossless then DeadLetter(w1, Numbered(w, t)) else w1;
      if HasRefcount(t) { ReleaseExact(w2, extra, t.payload); ReleaseInv(w2, t.payload); } else { assert extra + Held(t) == extra; }
    }
  }

  /** n references to t's payload. */
  function Times(t: Task, n: nat): multiset<nat> {
    if HasRefcount(t) then multiset{}[t.payload := n] else multiset{}
  }

  lemma {:induction false} CopyAllExact(w: World, extra: multiset<nat>, t: Task, lossless: bool, subs: seq<Sub>)
    requires WorldInv(w) && Exact(w, extra + Times(t, Active(subs)))
    ensures WorldInv(CopyAll(w, t, lossless, subs)) && Exact(CopyAll(w, t, lossless, subs), extra)
    decreases |subs|
  {
    hide Exact, WorldInv, CopyTo;
    if subs == [] {
      assert extra + Times(t, 0) == extra;
    } else if subs[0].active {
      var e := extra + Times(t, Active(subs[1..]));
      assert extra + Times(t, Active(subs)) == e + Held(t);
      CopyToExact(w, e, t, lossless, subs[0]);
      CopyAllExact(CopyTo(w, t, lossless, subs[0]), extra, t, lossless, subs[1..]);
    } else {
      CopyAllExact(w, extra, t, lossless, subs[1..]);
    }
  }

  /**
   Delivering one message keeps every refcount equal to the references that exist: a fan-out retains
   once per extra subscriber and releases once per refused copy, so the payload is freed only with
   the last copy.
   */
  lemma DeliverExact(w: World, extra: multiset<nat>, ch: Chan, t: Task)
    requires WorldInv(w) && ch.subs != [] && Exact(w, extra + Held(t))
    ensures WorldInv(Deliver(w, ch, t)) && Exact(Deliver(w, ch, t), extra)
  {
    hide Exact, SchedInv, Enqueue, DeadLetter, CopyAll, Retains, Active;
    LeakExact(w, extra, t);
    if ch.mode.P2P? && ch.subs[0].active {
      EnqueueExact(w, extra, t, ch.subs[0].worker);
      var (s, ok) := Enqueue(w.sched, t, ch.subs[0].worker);
      if !ok {
        DeadLetterExact(w.(sched := s), extra + Held(t), Numbered(w, t));
        LeakExact(DeadLetter(w.(sched := s), Numbered(w, t)), extra, t);
      }
    } else if !ch.mode.P2P? && Active(ch.subs) > 0 {
      var n := Active(ch.subs);
      if HasRefcount(t) {
        RetainsExact(w, extra + Held(t), t.payload, n - 1);
        var e := extra + Held(t);
        assert e[t.payload := e[t.payload] + (n - 1)] == extra + Times(t, n);
        CopyAllExact(Retains(w, t.payload, n - 1), extra, t, ch.lossless, ch.subs);
      } else {
        assert extra + Held(t) == extra + Times(t, n);
        CopyAllExact(w, extra, t, ch.lossless, ch.subs);
      }
    }
  }

  /** No queue takes the task: the worker's LQ (if it has one) is at its watermark and the RQ of its priority is full. */
  predicate NoQueueTakes(s: Sched, t: Task, worker: int)
    requires |s.rq.queues| == 4
  {
    (HasLq(s, worker) ==> |s.lqs[worker]| >= LQ_WATERMARK) && |s.rq.queues[Priority(t)]| >= RQ_CAP
  }

  lemma {:induction false} CopiesLeakNothing(w: World, t: Task, lossless: bool, subs: seq<Sub>)
    requires |w.sched.rq.queues| == 4
    ensures CopyAll(w, t, lossless, subs).leaked == w.leaked
    decreases |subs|
  {
    hide Enqueue;
    if subs != [] { CopiesLeakNothing(if subs[0].active then CopyTo(w, t, lossless, subs[0]) else w, t, lossless, subs[1..]); }
  }

  lemma {:induction false} RetainsLeakNothing(w: World, p: nat, n: nat)
    ensures Retains(w, p, n).leaked == w.leaked && Retains(w, p, n).sched == w.sched
    decreases n
  {
    if n > 0 { RetainsLeakNothing(Retain(w, p), p, n - 1); }
  }

  /**
   A delivery leaks its reference exactly when the message is point-to-point and its subscriber is
   inactive or no queue takes the message, or when a fan-out has no active subscriber.
   */
  lemma DeliverLeaksIff(w: World, ch: Chan, t: Task)
    requires |w.sched.rq.queues| == 4 && ch.subs != []
    ensures var lost := if ch.mode.P2P? then !ch.subs[0].active || NoQueueTakes(w.sched, t, ch.subs[0].worker) else Active(ch.subs) == 0;
      Deliver(w, ch, t).leaked == w.leaked + (if lost then Held(t) else multiset{})
  {
    if !ch.mode.P2P? {
      hide Enqueue;
      var n := Active(ch.subs);
      if n > 0 {
        if HasRefcount(t) { RetainsLeakNothing(w, t.payload, n - 1); }
        CopiesLeakNothing(if HasRefcount(t) then Retains(w, t.payload, n - 1) else w, t, ch.lossless, ch.subs);
      }
    }
  }

  lemma PopMessageExact(w: World, extra: multiset<nat>, c: nat)
    requires WorldInv(w) && Exact(w, extra) && c < |w.chans| && c != SYS_DROPPED && w.chans[c].ring != []
    ensures var ch := w.chans[c]; var w' := SetRing(w, c, ch.ring[1..]);
      WorldInv(w') && Exact(w', extra + Held(ch.ring[0]))
  {
    hide Exact, Bag, Counted, SchedInv;
    var ch := w.chans[c];
    BagFirst(ch.ring);
    SetRingCounted(w, c, ch.ring[1..]);
    LeaveExact(w, SetRing(w, c, ch.ring[1..]), extra, ch.ring[0]);
  }

  lemma {:induction false} DrainExact(w: World, extra: multiset<nat>, c: nat, n: nat)
    requires WorldInv(w) && Exact(w, extra) && c < |w.chans|
    ensures WorldInv(Drain(w, c, n)) && Exact(Drain(w, c, n), extra)
    decreases n
  {
    hide Exact, SchedInv, Deliver, SetRing;
    if n > 0 && w.chans[c].subs != [] && w.chans[c].ring != [] {
      var ch := w.chans[c];
      PopMessageExact(w, extra, c);
      DeliverExact(SetRing(w, c, ch.ring[1..]), extra, ch, ch.ring[0]);
      DrainExact(Deliver(SetRing(w, c, ch.ring[1..]), ch, ch.ring[0]), extra, c, n - 1);
    }
  }

  /** The producer's reference passes to the message. */
  lemma OwnExact(w: World, extra: multiset<nat>, t: Task)
    requires Exact(w, extra) && (HasRefcount(t) ==> t.payload in w.held)
    ensures Exact(Own(w, t), extra + Held(t))
  {
    hide Rc, Total, BagAll;
    var w' := Own(w, t);
    assert Counted(w') == Counted(w);
    forall p: nat ensures Balanced(w', extra + Held(t), p) { assert Balanced(w, extra, p); }
  }

  lemma TaggedHeld(t: Task, c: nat)
    ensures Held(Tagged(t, c)) == Held(t) && Priority(Tagged(t, c)) == Priority(t)
  {
    ChannelFlagKeeps(t, Or(t.flags, CHANNEL_MSG));
  }

  lemma PushMessageExact(w: World, extra: multiset<nat>, c: nat, m: Task)
    requires WorldInv(w) && Exact(w, extra + Held(m)) && c < |w.chans| && |w.chans[c].ring| < w.chans[c].cap
    ensures var w' := SetRing(w, c, w.chans[c].ring + [m]);
      WorldInv(w') && Exact(w', if c == SYS_DROPPED then extra + Held(m) else extra)
  {
    hide Exact, Bag, Counted, SchedInv;
    var q := w.chans[c].ring;
    var w' := SetRing(w, c, q + [m]);
    BagAppend(q, m);
    SetRingCounted(w, c, q + [m]);
    if c == SYS_DROPPED {
      assert Counted(w') == Counted(w) + multiset{};
      PlainExact(w, w', extra + Held(m), multiset{});
    } else {
      assert Counted(w') == Counted(w) + multiset{Unserial(m)};
      EnterExact(w, w', extra, m);
    }
  }

  lemma BufferExact(w: World, extra: multiset<nat>, c: nat, t: Task, m: Task)
    requires WorldInv(w) && Exact(w, extra) && c < |w.chans| && Held(m) == Held(t)
    requires HasRefcount(t) ==> t.payload in w.held
    ensures WorldInv(Buffer(w, c, t, m).0) && Exact(Buffer(w, c, t, m).0, extra)
  {
    hide Exact, SchedInv, Drain;
    var ch := w.chans[c];
    if |ch.ring| < ch.cap {
      OwnExact(w, extra, t);
      PushMessageExact(Own(w, t), extra, c, m);
      var w1 := SetRing(Own(w, t), c, ch.ring + [m]);
      assert w1 == Own(SetRing(w, c, ch.ring + [m]), t);
      if c == SYS_DROPPED { LeakExact(w1, extra, t); }
      var w2 := if c == SYS_DROPPED then Leak(w1, t) else w1;
      DrainExact(w2, extra, c, 1);
    }
  }

  /** Whoever emits, and whatever references the running code has in hand. */
  lemma EmitExact(w: World, extra: multiset<nat>, c: nat, t: Task)
    requires WorldInv(w) && Exact(w, extra) && (HasRefcount(t) ==> t.payload in w.held)
    ensures WorldInv(Emit(w, c, t).0) && Exact(Emit(w, c, t).0, extra)
  {
    hide Exact, SchedInv, Enqueue, Buffer, Tagged;
    if c < |w.chans| {
      var ch := w.chans[c];
      var m := Tagged(t, c);
      TaggedHeld(t, c);
      if ch.mode.P2P? && |ch.subs| == 1 && ch.subs[0].active {
        var (s, ok) := Enqueue(w.sched, m, ch.subs[0].worker);
        if ok {
          OwnExact(w, extra, t);
          EnqueueExact(Own(w, t), extra, m, ch.subs[0].worker);
          assert Own(w.(sched := s), t) == Own(w, t).(sched := s);
        } else {
          RefusedEnqueueExact(w, extra, m, ch.subs[0].worker);
          BufferExact(w.(sched := s), extra, c, t, Numbered(w, m));
        }
      } else {
        BufferExact(w, extra, c, t, m);
      }
    }
  }

  lemma RefusedEnqueueExact(w: World, extra: multiset<nat>, m: Task, worker: int)
    requires WorldInv(w) && Exact(w, extra) && !Enqueue(w.sched, m, worker).1
    ensures var w1 := w.(sched := Enqueue(w.sched, m, worker).0); WorldInv(w1) && Exact(w1, extra)
  {
    hide Exact, Total, BagAll, Enqueue, SchedInv;
    EnqueueConserves(w.sched, m, worker);
    var w1 := w.(sched := Enqueue(w.sched, m, worker).0);
    assert Counted(w1) == Counted(w) + multiset{};
    PlainExact(w, w1, extra, multiset{});
  }

  // ---- the priority reserve of a channel ring ------------------------------------------

  function NonCritical(q: seq<Task>): nat {
    if q == [] then 0 else NonCritical(q[..|q| - 1]) + One(Priority(q[|q| - 1]) != 0)
  }

  lemma {:induction false} NonCriticalPop(q: seq<Task>)
    requires q != []
    ensures NonCritical(q[1..]) <= NonCritical(q) <= |q|
    decreases |q|
  {
    if |q| > 1 {
      NonCriticalPop(q[..|q| - 1]);
      assert q[1..][..|q| - 2] == q[..|q| - 1][1..];
    }
  }

  lemma {:induction false} NonCriticalPush(q: seq<Task>, t: Task)
    ensures NonCritical(q + [t]) == NonCritical(q) + One(Priority(t) != 0)
    ensures NonCritical(q) <= |q|
  {
    assert (q + [t])[..|q|] == q;
    if q != [] { NonCriticalPop(q); }
  }

  ghost predicate Reserved(w: World, c: nat) {
    c < |w.chans| && |w.chans[c].ring| <= w.chans[c].cap && NonCritical(w.chans[c].ring) <= Threshold(w.chans[c].cap)
  }

  /** Only the dead-letter ring differs. */
  ghost predicate OnlyDeadLetters(w: World, w': World) {
    |w'.chans| == |w.chans| && forall c :: 0 <= c < |w.chans| && c != SYS_DROPPED ==> w'.chans[c] == w.chans[c]
  }

  lemma {:induction false} CopiesOnlyDeadLetter(w: World, t: Task, lossless: bool, subs: seq<Sub>)
    requires |w.sched.rq.queues| == 4
    ensures OnlyDeadLetters(w, CopyAll(w, t, lossless, subs))
    decreases |subs|
  {
    hide CopyTo;
    if subs != [] {
      CopyOnlyDeadLetter(w, t, lossless, subs[0]);
      CopiesOnlyDeadLetter(if subs[0].active then CopyTo(w, t, lossless, subs[0]) else w, t, lossless, subs[1..]);
    }
  }

  lemma CopyOnlyDeadLetter(w: World, t: Task, lossless: bool, sub: Sub)
    requires |w.sched.rq.queues| == 4
    ensures OnlyDeadLetters(w, CopyTo(w, t, lossless, sub))
  {
    hide Enqueue, HasRefcount;
  }

  lemma {:induction false} RetainsTouchNoRing(w: World, p: nat, n: nat)
    ensures Retains(w, p, n).chans == w.chans
    decreases n
  {
    if n > 0 { RetainsTouchNoRing(Retain(w, p), p, n - 1); }
  }

  lemma DeliverOnlyDeadLetters(w: World, ch: Chan, t: Task)
    requires |w.sched.rq.queues| == 4 && ch.subs != []
    ensures OnlyDeadLetters(w, Deliver(w, ch, t))
  {
    hide Enqueue, CopyAll, Retains;
    var n := Active(ch.subs);
    if ch.mode.Fanout? && n > 0 {
      var w1 := if HasRefcount(t) then Retains(w, t.payload, n - 1) else w;
      RetainsTouchNoRing(w, t.payload, n - 1);
      CopiesOnlyDeadLetter(w1, t, ch.lossless, ch.subs);
    }
  }

  lemma {:induction false} DrainReserve(w: World, c: nat, n: nat, d: nat)
    requires |w.sched.rq.queues| == 4 && c < |w.chans| && Reserved(w, d) && d != SYS_DROPPED
    ensures Reserved(Drain(w, c, n), d) && Drain(w, c, n).chans[d].cap == w.chans[d].cap
    decreases n
  {
    hide Deliver;
    if n > 0 && w.chans[c].subs != [] && w.chans[c].ring != [] {
      var ch := w.chans[c];
      var w1 := SetRing(w, c, ch.ring[1..]);
      NonCriticalPop(ch.ring);
      DeliverOnlyDeadLetters(w1, ch, ch.ring[0]);
      DrainReserve(Deliver(w1, ch, ch.ring[0]), c, n - 1, d);
    }
  }

  lemma PushReserve(w: World, c: nat, m: Task, d: nat)
    requires c < |w.chans| && Reserved(w, d) && |w.chans[c].ring| < w.chans[c].cap
    requires |w.chans[c].ring| < Threshold(w.chans[c].cap) || Priority(m) == 0
    ensures Reserved(SetRing(w, c, w.chans[c].ring + [m]), d)
  {
    hide NonCritical, Threshold, Priority;
    NonCriticalPush(w.chans[c].ring, m);
  }

  /** Only references change hands. */
  lemma SameRings(w: World, c: nat, t: Task)
    ensures var w1 := Own(w, t); var w2 := if c == SYS_DROPPED then Leak(w1, t) else w1; w2.chans == w.chans && w2.sched == w.sched
  {
    hide HasRefcount;
  }

  lemma BufferReserve(w: World, c: nat, t: Task, m: Task, d: nat)
    requires |w.sched.rq.queues| == 4 && c < |w.chans| && Reserved(w, d) && d != SYS_DROPPED
    requires |w.chans[c].ring| < Threshold(w.chans[c].cap) || Priority(m) == 0
    ensures Reserved(Buffer(w, c, t, m).0, d)
  {
    hide Drain, Threshold, NonCritical, Own, Leak, Priority;
    var ch := w.chans[c];
    if |ch.ring| < ch.cap {
      PushReserve(w, c, m, d);
      var w0 := SetRing(w, c, ch.ring + [m]);
      SameRings(w0, c, t);
      var w1 := Own(w0, t);
      var w2 := if c == SYS_DROPPED then Leak(w1, t) else w1;
      DrainReserve(w2, c, 1, d);
    }
  }

  /** Whatever is emitted anywhere, normal messages never fill a ring beyond its threshold. */
  lemma EmitReserve(w: World, c: nat, t: Task, d: nat)
    requires |w.sched.rq.queues| == 4 && Reserved(w, d) && d != SYS_DROPPED
    ensures Reserved(Emit(w, c, t).0, d)
  {
    hide Enqueue, Buffer, Tagged;
    if c < |w.chans| {
      var ch := w.chans[c];
      var m := Tagged(t, c);
      if |ch.ring| < Threshold(ch.cap) || Priority(m) == 0 {
        if ch.mode.P2P? && |ch.subs| == 1 && ch.subs[0].active {
          var s := Enqueue(w.sched, m, ch.subs[0].worker).0;
          EnqueueShape(w.sched, m, ch.subs[0].worker);
          BufferReserve(w.(sched := s), c, t, Numbered(w, m), d);
        } else {
          BufferReserve(w, c, t, m, d);
        }
      }
    }
  }

  lemma EnqueueShape(s: Sched, t: Task, worker: int)
    requires |s.rq.queues| == 4
    ensures |Enqueue(s, t, worker).0.rq.queues| == 4
  {
  }

  /** A critical message is refused only when critical messages alone fill the reserve. */
  lemma CriticalRefused(w: World, c: nat, t: Task)
    requires |w.sched.rq.queues| == 4 && Reserved(w, c) && Priority(t) == 0 && Emit(w, c, t).1 == CHAN_FULL
    ensures |w.chans[c].ring| == w.chans[c].cap
    ensures |w.chans[c].ring| - NonCritical(w.chans[c].ring) >= w.chans[c].cap - Threshold(w.chans[c].cap)
  {
    hide Enqueue, Drain, Tagged;
    TaggedHeld(t, c);
  }
}
