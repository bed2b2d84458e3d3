/**
 The channel registry as src/chan.c updates it, over the live scheduler and the live channel rings,
 and the worker loop on top of both: each method refines Channels or ChannelRuns.
 */
module ChannelRegistry {
  import opened Words
  import opened Tasks
  import opened MpmcProtocol
  import opened MpmcRing
  import opened Options
  import opened Scheduler
  import opened SchedulerCore
  import opened Channels
  import opened Routes
  import opened Delivery
  import opened ChannelTable
  import opened ChannelRuns
  import opened LocalQueue
  import EventHeap
  import ReadyQueue

  lemma SlotsArePower()
    ensures GoodCap(CHAN_SLOTS)
  {
    Pow2Add(5, 5);
    assert Pow2(5) == 32;
    Pow2IsPowerOfTwo(10);
  }

  /** The counting loop of a fan-out. */
  method CountActive(subs: seq<Sub>) returns (n: nat)
    ensures n == Active(subs)
  {
    n := 0;
    var i := 0;
    while i < |subs|
      invariant i <= |subs| && n + Active(subs[i..]) == Active(subs)
    {
      assert subs[i..][1..] == subs[i + 1..];
      if subs[i].active { n := n + 1; }
      i := i + 1;
    }
  }

  class Registry {
    const core: Core
    const table: Table
    var refs: map<nat, nat>
    var fault: bool
    ghost var held: multiset<nat>
    ghost var leaked: multiset<nat>
    ghost var allocs: multiset<nat>
    ghost var frees: multiset<nat>

    ghost function Frame(): set<object>
      reads table
    {
      {this, table} + table.repr + core.Frame()
    }

    ghost predicate Valid()
      reads this, table, table.repr, core.Frame()
    {
      && core.Valid() && table.Valid()
      && this !in table.repr && this !in core.Frame() && ({table} + table.repr) !! core.Frame()
      && |table.entries| >= 2 && table.entries[SYS_DROPPED].cap == CHAN_SLOTS
    }

    ghost function State(): World
      requires Valid()
      reads this, table, table.repr, core.Frame()
    {
      World(core.State(), table.Chans(), refs, fault, held, leaked, allocs, frees)
    }

    /** What the fields say about the state. */
    lemma Look()
      requires Valid()
      ensures |State().chans| == |table.entries| >= 2 && State().chans[SYS_DROPPED].cap == CHAN_SLOTS
      ensures |State().sched.rq.queues| == 4 && |State().sched.rq.counters| == 4
      ensures State().refs == refs && State().fault == fault && SchedInv(State().sched)
    {
      hide Core.Valid, Core.State, SchedInv;
      core.Sizes();
      core.ValidIsInv();
    }

    lemma LookAt(c: nat)
      requires Valid() && c < |State().chans|
      ensures c < |table.entries| && State().chans[c] == table.entries[c].Value()
    {
      hide Core.Valid, Core.State, SchedInv;
    }

    constructor (core: Core, table: Table)
      requires core.Valid() && table.Valid() && ({table} + table.repr) !! core.Frame()
      requires |table.entries| >= 2 && table.Chans()[SYS_DROPPED].cap == CHAN_SLOTS
      ensures this.core == core && this.table == table && fresh(this) && Valid()
      ensures State() == World(core.State(), table.Chans(), map[], false, multiset{}, multiset{}, multiset{}, multiset{})
    {
      hide Core.Valid, Table.Valid;
      this.core, this.table := core, table;
      refs, fault, held, leaked, allocs, frees := map[], false, multiset{}, multiset{}, multiset{}, multiset{};
    }

    static method SystemChannels() returns (t: Table)
      ensures t.Valid() && fresh(t) && fresh(t.repr) && t.Chans() == InitWorld(0).chans
    {
      hide Table.Valid, GoodCap;
      SlotsArePower();
      t := new Table();
      t.Add(Fanout, false, 0, false);
      t.Add(Fanout, false, CHAN_SLOTS, true);
    }

    /** gmk_chan_reg_init: sys.direct and sys.dropped, over a scheduler. */
    static method Create(core: Core) returns (r: Registry)
      requires core.Valid()
      ensures r.core == core && r.Valid() && fresh(r.Frame() - core.Frame())
      ensures r.State() == InitWorld(0).(sched := core.State())
    {
      hide Table.Valid, Registry.Valid, Registry.State, GoodCap, Holds, Bank.Valid, ReadyQueue.Queue.Valid, EventHeap.EvqInv;
      var t := SystemChannels();
      r := new Registry(core, t);
    }

    // ---- payload references -------------------------------------------------------------

    /** The payload side of the state; scheduler and rings stay. */
    method SetRefs(refs: map<nat, nat>, fault: bool, ghost frees: multiset<nat>)
      requires Valid()
      modifies this`refs, this`fault, this`frees
      ensures Valid() && State() == old(State()).(refs := refs, fault := fault, frees := frees)
    {
      hide Core.Valid, Table.Valid, Table.Chans;
      this.refs, this.fault, this.frees := refs, fault, frees;
    }

    /** gmk_payload_retain: one more reference, or a fault when the payload is not allocated. */
    method RetainPayload(p: nat)
      requires Valid()
      modifies this`refs, this`fault, this`frees
      ensures Valid() && State() == Retain(old(State()), p)
    {
      hide Registry.Valid, Registry.State;
      Look();
      if p !in refs { SetRefs(refs, true, State().frees); } else { SetRefs(refs[p := refs[p] + 1], fault, State().frees); }
    }

    /** gmk_payload_release; true when it freed the payload. */
    method ReleasePayload(p: nat) returns (freed: bool)
      requires Valid()
      modifies this`refs, this`fault, this`frees
      ensures Valid() && State() == Release(old(State()), p)
      ensures freed <==> p in old(refs) && old(refs)[p] == 1
    {
      hide Registry.Valid, Registry.State;
      Look();
      ghost var gone := State().frees;
      freed := false;
      if p !in refs || refs[p] == 0 {
        SetRefs(refs, true, gone);
      } else if refs[p] == 1 {
        SetRefs(refs - {p}, fault, gone + multiset{p});
        freed := true;
      } else {
        SetRefs(refs[p := refs[p] - 1], fault, gone);
      }
    }

    ghost method LeakOf(t: Task)
      requires Valid()
      modifies this`leaked
      ensures Valid() && State() == Leak(old(State()), t)
    {
      hide Core.Valid, Table.Valid, Table.Chans, HasRefcount;
      if HasRefcount(t) { leaked := leaked + multiset{t.payload}; }
    }

    ghost method OwnOf(t: Task)
      requires Valid()
      modifies this`held
      ensures Valid() && State() == Own(old(State()), t)
    {
      hide Core.Valid, Table.Valid, Table.Chans, HasRefcount;
      if HasRefcount(t) { held := held - multiset{t.payload}; }
    }

    // ---- the parts ------------------------------------------------------------------------

    /** _gmk_enqueue; the task that was tried carries the serial number. */
    method EnqueueTask(t: Task, worker: int) returns (ok: bool, tried: Task)
      requires Valid()
      modifies core.Frame()
      ensures Valid() && table.repr == old(table.repr) && |old(State()).sched.rq.queues| == 4
      ensures (State().sched, ok) == Enqueue(old(State()).sched, t, worker) && tried == Numbered(old(State()), t)
      ensures State() == old(State()).(sched := State().sched)
    {
      hide Core.Valid, Table.Valid, Table.Chans, Enqueue, SchedInv, Total;
      Look();
      tried := t.(serial := core.nextSeq);
      SerialOf();
      ok := core.EnqueueTask(t, worker);
    }

    lemma SerialOf()
      requires Valid()
      ensures State().sched.nextSeq == core.nextSeq
    {
      hide Core.Frame, Table.Valid, Table.Chans, Core.Shape;
    }

    method PushRing(c: nat, t: Task) returns (ok: bool)
      requires Valid() && c < |State().chans| && State().chans[c].open
      requires State().chans[c].cap == 1 ==> State().chans[c].ring == []
      modifies table.repr
      ensures Valid() && table.repr == old(table.repr)
      ensures ok == (|old(State()).chans[c].ring| < old(State()).chans[c].cap)
      ensures State() == if ok then SetRing(old(State()), c, old(State()).chans[c].ring + [t]) else old(State())
    {
      hide Core.Valid, Table.Valid, Table.Chans, SchedInv;
      Look();
      LookAt(c);
      ok := table.PushRing(c, t);
    }

    method PopRing(c: nat) returns (r: Option<Task>)
      requires Valid() && c < |State().chans|
      modifies table.repr
      ensures Valid() && table.repr == old(table.repr)
      ensures r == if old(State()).chans[c].ring == [] then None else Some(old(State()).chans[c].ring[0])
      ensures State() == if r.Some? then SetRing(old(State()), c, old(State()).chans[c].ring[1..]) else old(State())
    {
      hide Core.Valid, Table.Valid, Table.Chans, SchedInv;
      Look();
      LookAt(c);
      r := table.PopRing(c);
    }

    // ---- channel operations ---------------------------------------------------------------

    /** The dead-letter ring takes the task if it is open and has room; everything else stays. */
    method RouteToDeadLetter(t: Task)
      requires Valid()
      modifies table.repr
      ensures Valid() && table.repr == old(table.repr) && State() == DeadLetter(old(State()), t)
    {
      hide Registry.Valid, Registry.State, SchedInv;
      Look();
      LookAt(SYS_DROPPED);
      if table.entries[SYS_DROPPED].open { var _ := PushRing(SYS_DROPPED, t); }
    }

    /** The copy loop of a fan-out. */
    method Copies(t: Task, lossless: bool, subs: seq<Sub>)
      requires Valid()
      modifies Frame()
      ensures Valid() && table.repr == old(table.repr) && |old(State()).sched.rq.queues| == 4
      ensures State() == CopyAll(old(State()), t, lossless, subs)
    {
      hide Registry.Valid, Registry.State, Enqueue, DeadLetter, Release, SchedInv, Core.Frame;
      Look();
      ghost var s := State();
      var i := 0;
      while i < |subs|
        invariant i <= |subs| && Valid() && table.repr == old(table.repr) && |State().sched.rq.queues| == 4
        invariant |State().chans| == |s.chans|
        invariant CopyAll(State(), t, lossless, subs[i..]) == CopyAll(s, t, lossless, subs)
      {
        assert subs[i..][1..] == subs[i + 1..];
        if subs[i].active { Copy(t, lossless, subs[i]); }
        i := i + 1;
      }
    }

    /** One copy: enqueued, or dropped or dead-lettered with its reference given back. */
    method Copy(t: Task, lossless: bool, sub: Sub)
      requires Valid()
      modifies Frame()
      ensures Valid() && table.repr == old(table.repr) && |old(State()).sched.rq.queues| == 4
      ensures State() == CopyTo(old(State()), t, lossless, sub)
    {
      hide Registry.Valid, Registry.State, Enqueue, DeadLetter, Release, SchedInv;
      var ok, tried := EnqueueTask(t, sub.worker);
      if !ok {
        if lossless { RouteToDeadLetter(tried); }
        if HasRefcount(t) { var _ := ReleasePayload(t.payload); }
      }
    }

    /** The retain loop of a fan-out. */
    method RetainExtra(p: nat, n: nat)
      requires Valid()
      modifies this`refs, this`fault, this`frees
      ensures Valid() && State() == Retains(old(State()), p, n)
    {
      hide Registry.Valid, Registry.State, Retain;
      ghost var s := State();
      var r := 0;
      while r < n
        invariant r <= n && Valid()
        invariant Retains(State(), p, n - r) == Retains(s, p, n)
      {
        RetainPayload(p);
        r := r + 1;
      }
    }

    /** A point-to-point message for its subscriber: enqueued, or dead-lettered and its reference lost. */
    method DeliverTo(t: Task, sub: Sub)
      requires Valid()
      modifies Frame()
      ensures Valid() && table.repr == old(table.repr) && |old(State()).sched.rq.queues| == 4
      ensures var w := old(State()); var (s, ok) := Enqueue(w.sched, t, sub.worker); var w1 := w.(sched := s);
        State() == if !sub.active then Leak(w, t) else if ok then w1 else Leak(DeadLetter(w1, Numbered(w, t)), t)
    {
      hide Registry.Valid, Registry.State, Enqueue, DeadLetter, SchedInv, HasRefcount, Leak;
      Look();
      if sub.active {
        var ok, tried := EnqueueTask(t, sub.worker);
        if !ok {
          RouteToDeadLetter(tried);
          LeakOf(t);
        }
      } else {
        LeakOf(t);
      }
    }

    /** A copy for each active subscriber, each with a reference of its own; without any, the reference is lost. */
    method FanOut(t: Task, lossless: bool, subs: seq<Sub>, n: nat)
      requires Valid() && n == Active(subs)
      modifies Frame()
      ensures Valid() && table.repr == old(table.repr) && |old(State()).sched.rq.queues| == 4
      ensures n == 0 ==> State() == Leak(old(State()), t)
      ensures var w := old(State());
        n > 0 ==> State() == CopyAll(if HasRefcount(t) then Retains(w, t.payload, n - 1) else w, t, lossless, subs)
      ensures n > 0 ==> exists a: nat :: FannedOut(old(State()), t, lossless, subs, State(), a)
    {
      hide Registry.Valid, Registry.State, CopyAll, Retains, Active, SchedInv, HasRefcount, Leak, FannedOut;
      Look();
      ghost var w := State();
      if n == 0 {
        LeakOf(t);
      } else {
        RetainForCopies(t, n);
        Copies(t, lossless, subs);
        FanLands(w, t, lossless, subs, n);
      }
    }

    lemma FanLands(w: World, t: Task, lossless: bool, subs: seq<Sub>, n: nat)
      requires SchedInv(w.sched) && n == Active(subs) > 0
      ensures var w1 := if HasRefcount(t) then Retains(w, t.payload, n - 1) else w;
        |w1.sched.rq.queues| == 4 && exists a: nat :: FannedOut(w, t, lossless, subs, CopyAll(w1, t, lossless, subs), a)
    {
      hide SchedInv, CopyAll, Retains, FannedOut, HasRefcount;
      RetainsTouchNoRing(w, t.payload, n - 1);
      RetainsLeakNothing(w, t.payload, n - 1);
      var w1 := if HasRefcount(t) then Retains(w, t.payload, n - 1) else w;
      var a := CopiesLand(w1, t, lossless, subs);
      SameScene(w, w1, t, lossless, subs, CopyAll(w1, t, lossless, subs), a);
    }

    /** The first copy uses the message's own reference. */
    method RetainForCopies(t: Task, n: nat)
      requires Valid() && n > 0
      modifies this`refs, this`fault, this`frees
      ensures Valid() && State() == if HasRefcount(t) then Retains(old(State()), t.payload, n - 1) else old(State())
    {
      hide Registry.Valid, Registry.State, Retains, HasRefcount;
      NoExtra(State(), t.payload);
      if HasRefcount(t) && n > 1 { RetainExtra(t.payload, n - 1); }
    }

    /** One message that was popped from channel c: to the single subscriber, or a copy to each active one. */
    method DeliverMessage(c: nat, t: Task)
      requires Valid() && c < |State().chans| && State().chans[c].subs != []
      modifies Frame()
      ensures Valid() && table.repr == old(table.repr) && |old(State()).sched.rq.queues| == 4
      ensures var w := old(State()); State() == Deliver(w, w.chans[c], t) && Delivered(w, w.chans[c], t, State())
    {
      hide Registry.Valid, Registry.State, Deliver, SchedInv, Delivered;
      Look();
      DeliveredAs(State(), c, t);
      LookAt(c);
      var e := table.entries[c];
      SendOn(e.mode, e.lossless, e.subs, State().chans[c], t);
    }

    method SendOn(mode: Mode, lossless: bool, subs: seq<Sub>, ghost ch: Chan, t: Task)
      requires Valid() && ch.mode == mode && ch.lossless == lossless && ch.subs == subs != []
      modifies Frame()
      ensures Valid() && table.repr == old(table.repr) && |old(State()).sched.rq.queues| == 4
      ensures State() == Deliver(old(State()), ch, t)
    {
      hide Registry.Valid, Registry.State, Enqueue, DeadLetter, CopyAll, Retains, Active, SchedInv, HasRefcount, Leak, FannedOut, Enqueued;
      if mode.P2P? {
        DeliverTo(t, subs[0]);
      } else {
        var n := CountActive(subs);
        FanOut(t, lossless, subs, n);
      }
    }

    lemma DeliveredAs(w: World, c: nat, t: Task)
      requires c < |w.chans| && w.chans[c].subs != [] && SchedInv(w.sched)
      ensures Delivered(w, w.chans[c], t, Deliver(w, w.chans[c], t))
    {
      hide SchedInv, Deliver, Delivered;
      DeliverLands(w, w.chans[c], t);
    }

    lemma NoExtra(w: World, p: nat)
      ensures Retains(w, p, 0) == w
    {
    }

    /** gmk_chan_drain; limit 0 means no limit. */
    method DrainChannel(c: nat, limit: nat) returns (drained: nat)
      requires Valid() && c < |State().chans|
      modifies Frame()
      ensures Valid() && table.repr == old(table.repr) && |old(State()).sched.rq.queues| == 4
      ensures State() == Drain(old(State()), c, if limit == 0 then TWO32 - 1 else limit)
      ensures DrainedBy(old(State()), c, if limit == 0 then TWO32 - 1 else limit, State())
    {
      hide DrainedBy, Delivered;
      hide Registry.Valid, Registry.State, Deliver, SchedInv, Core.Frame, SetRing;
      Look();
      LookAt(c);
      ghost var s := State();
      var most: nat := if limit == 0 then TWO32 - 1 else limit;
      DrainLands(s, c, most);
      drained := 0;
      if table.entries[c].subs == [] { return 0; }
      while drained < most
        invariant drained <= most && Valid() && table.repr == old(table.repr) && |State().sched.rq.queues| == 4
        invariant |State().chans| == |s.chans| && State().chans[c].subs == s.chans[c].subs
        invariant Drain(State(), c, most - drained) == Drain(s, c, most)
        decreases most - drained
      {
        var popped := PopOne(c);
        if !popped { break; }
        drained := drained + 1;
      }
    }

    /** One round of the drain loop; false when the ring is empty. */
    method PopOne(c: nat) returns (popped: bool)
      requires Valid() && c < |State().chans| && State().chans[c].subs != []
      modifies Frame()
      ensures Valid() && table.repr == old(table.repr) && |old(State()).sched.rq.queues| == 4 && |State().sched.rq.queues| == 4
      ensures popped == (old(State()).chans[c].ring != []) && |State().chans| == |old(State()).chans|
      ensures var ch := old(State()).chans[c];
        State() == if popped then Deliver(SetRing(old(State()), c, ch.ring[1..]), ch, ch.ring[0]) else old(State())
      ensures State().chans[c].subs == old(State()).chans[c].subs
    {
      hide Registry.Valid, Registry.State, Deliver, SchedInv, Core.Frame;
      Look();
      ghost var s := State();
      var t := PopRing(c);
      if t.None? { return false; }
      DeliverSame(State(), s.chans[c], c, t.value);
      DeliverSetup(State(), s.chans[c], t.value);
      DeliverMessage(c, t.value);
      Look();
      return true;
    }

    /** Delivery looks at mode, guarantee and subscribers only. */
    lemma DeliverSame(w: World, ch: Chan, c: nat, t: Task)
      requires c < |w.chans| && |w.sched.rq.queues| == 4 && ch.subs != [] && w.chans[c] == ch.(ring := w.chans[c].ring)
      ensures Deliver(w, w.chans[c], t) == Deliver(w, ch, t)
    {
      hide Enqueue, CopyAll, Retains, DeadLetter;
    }

    /** The ring part of an emit, with the immediate drain of a point-to-point channel. */
    method BufferMessage(c: nat, t: Task, m: Task) returns (rc: int)
      requires Valid() && c < |State().chans| && State().chans[c].open
      requires State().chans[c].cap == 1 ==> State().chans[c].ring == []
      modifies Frame()
      ensures Valid() && table.repr == old(table.repr) && |old(State()).sched.rq.queues| == 4
      ensures (State(), rc) == Buffer(old(State()), c, t, m)
    {
      hide Registry.Valid, Registry.State, Drain, Own, Leak, SchedInv;
      Look();
      LookAt(c);
      ghost var s := State();
      var ok := PushRing(c, m);
      if !ok { return CHAN_FULL; }
      SameRings(State(), c, t);
      OwnOf(t);
      if c == SYS_DROPPED { LeakOf(t); }
      Look();
      LookAt(c);
      if table.entries[c].mode.P2P? { var _ := DrainChannel(c, 1); }
      return GMK_OK;
    }

    /** gmk_chan_emit, with all its error codes. */
    method EmitTask(c: nat, t: Task) returns (rc: int)
      requires Valid() && RingMayTake(State(), c, t)
      modifies Frame()
      ensures Valid() && table.repr == old(table.repr) && |old(State()).sched.rq.queues| == 4
      ensures (State(), rc) == Emit(old(State()), c, t) && Emitted(old(State()), c, t, State(), rc)
    {
      hide Registry.Valid, Registry.State, Enqueue, Buffer, Own, SchedInv, Threshold, Tagged, Emitted, Enqueued;
      Look();
      ghost var s := State();
      EmittedAs(s, c, t);
      if c >= |table.entries| { return ERR_INVALID; }
      LookAt(c);
      if !table.entries[c].open { return CHAN_CLOSED; }
      var m := Tagged(t, c);
      TaggedHeld(t, c);
      var count := CountRing(c);
      if count >= Threshold(table.entries[c].cap) && Priority(m) != 0 { return CHAN_FULL; }
      var subs := table.entries[c].subs;
      if table.entries[c].mode.P2P? && |subs| == 1 && subs[0].active {
        var ok, tried := EnqueueTask(m, subs[0].worker);
        if ok {
          OwnOf(t);
          return GMK_OK;
        }
        m := tried;
        assert Priority(m) == Priority(t);
      }
      RoomInOneSlot(s, c, t, m);
      rc := BufferMessage(c, t, m);
    }

    lemma EmittedAs(w: World, c: nat, t: Task)
      requires SchedInv(w.sched)
      ensures var (w', rc) := Emit(w, c, t); Emitted(w, c, t, w', rc)
    {
      hide SchedInv, Emit, Emitted;
      EmitLands(w, c, t);
    }

    /** Past the reserve test, a one-slot ring is empty. */
    lemma RoomInOneSlot(w: World, c: nat, t: Task, m: Task)
      requires c < |w.chans| && RingMayTake(w, c, t) && Priority(m) == Priority(t)
      requires !(|w.chans[c].ring| >= Threshold(w.chans[c].cap) && Priority(m) != 0)
      ensures w.chans[c].cap == 1 ==> w.chans[c].ring == []
    {
    }

    method CountRing(c: nat) returns (n: nat)
      requires Valid() && c < |State().chans|
      ensures n == |State().chans[c].ring|
    {
      hide Core.Valid, Core.State, SchedInv;
      Look();
      LookAt(c);
      n := table.Count(c);
    }

    /** gmk_chan_sub: refused on a closed, bound or full channel; otherwise the subscriber comes last. */
    method SubscribeTo(c: nat, moduleId: nat, worker: int) returns (rc: int)
      requires Valid()
      modifies table.repr
      ensures Valid() && table.repr == old(table.repr)
      ensures (State(), rc) == Subscribe(old(State()), c, moduleId, worker)
      ensures Subscribed(old(State()), c, moduleId, worker, State(), rc)
      ensures rc == GMK_OK ==> |State().chans[c].subs| <= MAX_CHAN_SUBS && (State().chans[c].mode.P2P? ==> |State().chans[c].subs| == 1)
    {
      hide Core.Valid, Table.Valid, Table.Chans, SchedInv;
      Look();
      SubscribeLands(State(), c, moduleId, worker);
      if c >= |table.entries| { return ERR_INVALID; }
      LookAt(c);
      var e := table.entries[c];
      if !e.open { return CHAN_CLOSED; }
      if e.mode.P2P? && |e.subs| >= 1 { return CHAN_ALREADY_BOUND; }
      if |e.subs| >= MAX_CHAN_SUBS { return CHAN_FULL; }
      table.AddSub(c, Sub(moduleId, worker, true));
      return GMK_OK;
    }

    // ---- kernel calls and the worker loop ---------------------------------------------------

    /**
     gmk_chan_open: the new channel comes last, with its capacity rounded up to a power of two, and its
     place is its id; a full table, a name in use and a capacity beyond 2^31 have their error codes.
     */
    method OpenChannel(taken: bool, mode: Mode, lossless: bool, slots: nat) returns (rc: int)
      requires Valid() && slots < TWO32
      modifies table
      ensures Valid() && fresh(table.repr - old(table.repr)) && old(table.repr) <= table.repr
      ensures (State(), rc) == Open(old(State()), taken, mode, lossless, slots)
      ensures Opened(old(State()), taken, mode, lossless, slots, State(), rc)
      ensures rc >= 0 <==> |old(State()).chans| < MAX_CHANNELS && !taken && slots <= TWO31
      ensures rc >= 0 ==> rc == |old(State()).chans| == |State().chans| - 1 && State().chans[rc].open
      ensures rc >= 0 ==> State().chans[rc].ring == [] && State().chans[rc].cap >= slots && GoodCap(State().chans[rc].cap)
    {
      hide Registry.Valid, Registry.State, SchedInv, NextPow2, IsPowerOfTwo, GoodCap, Opened;
      Look();
      OpenLands(State(), taken, mode, lossless, slots);
      if |table.entries| >= MAX_CHANNELS { return CHAN_FULL; }
      if taken { return ERR_EXISTS; }
      var n: nat := if slots == 0 then CHAN_SLOTS else if IsPowerOfTwo(slots) then slots else NextPow2(slots);
      SlotsFit(slots, n);
      if n == 0 { return ERR_NOMEM; }
      rc := |table.entries|;
      AddChannel(mode, lossless, n);
    }

    method AddChannel(mode: Mode, lossless: bool, n: nat)
      requires Valid() && GoodCap(n)
      modifies table
      ensures Valid() && fresh(table.repr - old(table.repr)) && old(table.repr) <= table.repr
      ensures State() == old(State()).(chans := old(State()).chans + [Chan(mode, lossless, n, [], [], true)])
    {
      hide Core.Valid, Table.Valid, Table.Chans, SchedInv, GoodCap;
      Look();
      table.Add(mode, lossless, n, true);
    }

    /** gmk_chan_close: the system channels stay open; true when the channel was closed. */
    method CloseChannel(c: nat) returns (closed: bool)
      requires Valid()
      modifies table.repr
      ensures Valid() && table.repr == old(table.repr)
      ensures State() == Close(old(State()), c) && (closed <==> SYS_DROPPED < c < |State().chans|)
    {
      hide Core.Valid, Table.Valid, Table.Chans, SchedInv;
      Look();
      if c < |table.entries| { LookAt(c); }
      closed := SYS_DROPPED < c < |table.entries|;
      if closed { table.Close(c); }
    }

    ghost method Claim(p: nat, take: bool)
      requires Valid()
      modifies this`held
      ensures Valid() && State() == old(State()).(held := if take then old(State()).held + multiset{p} else old(State()).held - multiset{p})
    {
      hide Core.Valid, Table.Valid, Table.Chans;
      held := if take then held + multiset{p} else held - multiset{p};
    }

    /** gmk_payload_alloc, when the arena returned p: one reference, held by the caller. */
    method AllocatePayload(p: nat)
      requires Valid() && p !in State().refs
      modifies this
      ensures Valid() && State() == AllocPayload(old(State()), p) && State().refs[p] == 1
    {
      hide Core.Valid, Table.Valid, Table.Chans;
      refs := refs[p := 1];
      held, allocs := held + multiset{p}, allocs + multiset{p};
    }

    /** A submission, yield or post; an accepted task takes its caller's reference along. */
    method PerformAct(a: Act)
      requires Valid()
      modifies Frame()
      ensures Valid() && table.repr == old(table.repr) && |old(State()).sched.rq.queues| == 4
      ensures State() == Act1(old(State()), a)
    {
      hide Core.Valid, Table.Valid, Table.Chans, Perform, Takes, Own, SchedInv, Total, When, Stored;
      Look();
      ghost var w := State();
      var ok := core.PerformAct(a);
      assert State() == w.(sched := Perform(w.sched, a));
      if ok { OwnOf(a.t); }
    }

    /** A retain on behalf of the caller, who then holds the reference, and a release of one it holds. */
    method RetainForCaller(p: nat)
      requires Valid()
      modifies this
      ensures Valid()
      ensures var w1 := Retain(old(State()), p); State() == w1.(held := w1.held + multiset{p})
    {
      hide Registry.Valid, Registry.State, SchedInv;
      RetainPayload(p);
      Claim(p, true);
    }

    method GiveUp(p: nat)
      requires Valid()
      modifies this
      ensures Valid() && State() == Release(old(State()).(held := old(State()).held - multiset{p}), p)
    {
      hide Registry.Valid, Registry.State, Release, SchedInv;
      Claim(p, false);
      var _ := ReleasePayload(p);
    }

    /** Any kernel call that keeps to the rules. */
    method CallKernel(op: Op)
      requires Valid() && Allowed(State(), op)
      modifies Frame()
      ensures Valid() && fresh(table.repr - old(table.repr)) && old(table.repr) <= table.repr
      ensures |old(State()).sched.rq.queues| == 4 && State() == Exec(old(State()), op)
    {
      hide Registry.Valid, Registry.State, Open, Close, Subscribe, Emit, Drain, Act1, Release, Retain, AllocPayload;
      hide HasRefcount, RingMayTake, SchedInv, Core.Frame;
      Look();
      match op {
        case AllocOp(p) => AllocatePayload(p);
        case RetainOp(p) => RetainForCaller(p);
        case GiveUpOp(p) => GiveUp(p);
        case OpenOp(taken, mode, lossless, slots) => var _ := OpenChannel(taken, mode, lossless, slots);
        case CloseOp(c) => var _ := CloseChannel(c);
        case SubscribeOp(c, m, k) => var _ := SubscribeTo(c, m, k);
        case EmitOp(c, t) => var _ := EmitTask(c, t);
        case DrainOp(c, limit) => if c < |table.entries| { var _ := DrainChannel(c, limit); }
        case ActOp(a) => PerformAct(a);
      }
    }

    /** The calls a handler makes, one after the other. */
    method RunHandler(calls: seq<Op>)
      requires Valid() && |State().sched.rq.queues| == 4 && Sized(calls) && AllAllowed(State(), calls)
      modifies Frame()
      ensures Valid() && fresh(table.repr - old(table.repr)) && old(table.repr) <= table.repr
      ensures State() == ExecAll(old(State()), calls)
    {
      hide Registry.Valid, Registry.State, Exec, Allowed, SchedInv, Core.Frame;
      ghost var w := State();
      var i := 0;
      while i < |calls|
        invariant i <= |calls| && Valid() && fresh(table.repr - old(table.repr)) && old(table.repr) <= table.repr
        invariant |State().sched.rq.queues| == 4 && Sized(calls[i..]) && AllAllowed(State(), calls[i..])
        invariant ExecAll(State(), calls[i..]) == ExecAll(w, calls)
      {
        assert calls[i..][1..] == calls[i + 1..] && calls[i] in calls[i..];
        CallKernel(calls[i]);
        i := i + 1;
      }
    }

    /** worker_dispatch_task: the handler, then the retry or the release of the task's payload. */
    method HandleTask(run: Conduct)
      requires Valid() && |State().sched.rq.queues| == 4 && Sized(run.calls) && AllAllowed(State(), run.calls)
      modifies Frame()
      ensures Valid() && fresh(table.repr - old(table.repr)) && old(table.repr) <= table.repr
      ensures State() == Handle(old(State()), run) && Ended(ExecAll(old(State()), run.calls), run.rc, run.left, State())
    {
      hide Registry.Valid, Registry.State, ExecAll, AllAllowed, Enqueue, Release, HasRefcount, SchedInv, Ended, Enqueued;
      HandleLands(State(), run);
      RunHandler(run.calls);
      if run.rc == GMK_RETRY {
        var ok, _ := EnqueueTask(run.left, -1);
        if !ok { LeakOf(run.left); }
      } else if HasRefcount(run.left) {
        var _ := ReleasePayload(run.left.payload);
      }
    }

    /** The scheduler's part of an iteration that finds no task: due events move to the worker's queue. */
    method MoveEvents(id: nat, tick: nat)
      requires Valid() && id < |State().sched.lqs|
      modifies core.Frame()
      ensures Valid() && table.repr == old(table.repr) && |old(State()).sched.rq.queues| == 4
      ensures State() == old(State()).(sched := DrainEvq(old(State()).sched, id, tick, DRAIN_LIMIT).0)
    {
      hide Core.Valid, Table.Valid, Table.Chans, SchedInv, DrainEvq;
      Look();
      var _ := core.DrainEvents(id, tick, DRAIN_LIMIT);
    }

    method Gathered(id: nat) returns (t: Option<Task>)
      requires Valid() && id < |State().sched.lqs|
      modifies core.Frame()
      ensures Valid() && table.repr == old(table.repr)
      ensures |old(State()).sched.rq.queues| == 4 && |old(State()).sched.rq.counters| == 4
      ensures (State().sched, t) == Gather(old(State()).sched, id) && State() == old(State()).(sched := State().sched)
      ensures |State().sched.lqs| == |old(State()).sched.lqs| && |State().sched.rq.queues| == 4
    {
      hide Core.Valid, Table.Valid, Table.Chans, SchedInv, Gather, Total, When;
      Look();
      t := core.GatherTask(id);
      core.Sizes();
    }

    /** One iteration of gmk_worker_loop with a handler that keeps to the rules. */
    method WorkerIteration(id: nat, tick: nat, handler: Task -> Conduct)
      requires Valid() && id < |State().sched.lqs|
      requires |State().sched.rq.queues| == 4 && |State().sched.rq.counters| == 4
      requires var (s, t) := Gather(State().sched, id); t.Some? ==> Wellbehaved(State().(sched := s), t.value, handler(t.value))
      modifies Frame()
      ensures Valid() && fresh(table.repr - old(table.repr)) && old(table.repr) <= table.repr
      ensures State() == Work(old(State()), id, tick, handler) && Worked(old(State()), id, tick, handler, State())
    {
      hide Registry.Valid, Registry.State, Gather, DrainEvq, Handle, SchedInv, AllAllowed, Worked;
      Look();
      WorkLands(State(), id, tick, handler);
      var t := Gathered(id);
      if t.Some? {
        HandleTask(handler(t.value));
      } else {
        MoveEvents(id, tick);
      }
    }
  }

  /** What gmk_chan_open makes of a capacity is one the ring accepts, unless no 32-bit power of two is large enough. */
  lemma SlotsFit(slots: nat, n: nat)
    requires slots < TWO32
    requires n == if slots == 0 then CHAN_SLOTS else if IsPowerOfTwo(slots) then slots else NextPow2(slots)
    ensures n == 0 <==> slots > TWO31
    ensures n != 0 ==> GoodCap(n) && n >= slots
  {
    hide IsPowerOfTwo, NextPow2;
    if slots == 0 {
      SlotsArePower();
    } else if IsPowerOfTwo(slots) {
      PowerFits(slots);
    } else {
      NextPow2Least(slots);
    }
  }

  /** A 32-bit power of two is at most 2^31. */
  lemma PowerFits(x: nat)
    requires IsPowerOfTwo(x) && x < TWO32
    ensures x <= TWO31
  {
    hide IsPowerOfTwo, Pow2;
    var k := PowerOfTwoExponent(x);
    Pow2Words();
    if k > 31 { Pow2Monotone(32, k); } else { Pow2Monotone(k, 31); }
  }
}
