/** A run from initialisation on, by the rules, in which a payload is lost: a refused point-to-point message. */
module LostMessage {
  import opened Words
  import opened Tasks
  import opened Scheduler
  import opened Channels
  import opened ChannelRuns

  /** A critical message without payload. */
  predicate Plain(t: Task) {
    Priority(t) == 0 && !HasRefcount(t)
  }

  /** A critical message with a refcounted payload. */
  predicate Packet(t: Task) {
    Priority(t) == 0 && HasRefcount(t)
  }

  lemma PacketFlags(f: nat, t: Task)
    requires f == Pow2(PAYLOAD_RC_BIT)
    ensures Plain(t.(flags := 0)) && Packet(t.(flags := f, payload := 0x1000))
  {
    assert Pow2(2) == 4 && f == 16 * 4;
    AndOnes(f, 2);
    AndOnes(0, 2);
    ShiftIsDivision(f, 2);
    ShiftIsDivision(0, 2);
    BitOfPow2(PAYLOAD_RC_BIT, PAYLOAD_RC_BIT);
    NoBits(PAYLOAD_RC_BIT);
  }

  /** Channel 2 is point-to-point; its subscriber takes any worker. */
  function Channels3(): seq<Chan> {
    [Chan(Fanout, false, 0, [], [], false), Chan(Fanout, false, CHAN_SLOTS, [], [], true),
     Chan(P2P, false, 8, [], [Sub(0, -1, true)], true)]
  }

  /** n critical tasks wait in the RQ, nothing else anywhere. */
  ghost predicate Scene(w: World, n: nat) {
    && w.chans == Channels3() && w.refs == map[] && w.held == multiset{} && w.leaked == multiset{}
    && |w.sched.rq.queues| == 4 && |w.sched.rq.counters| == 4 && |w.sched.rq.queues[0]| == n
  }

  ghost predicate RunTo(run: seq<World>, es: seq<Event>, w: World)
    ensures RunTo(run, es, w) ==> |run| == |es| + 1 && run[|es|] == w
  {
    IsRun(run, es) && run[|es|] == w
  }

  lemma Go(run: seq<World>, es: seq<Event>, w: World, e: Event, w': World) returns (run': seq<World>, es': seq<Event>)
    requires RunTo(run, es, w) && Step(w, e, w')
    ensures RunTo(run', es', w')
  {
    hide Step, InitWorld;
    run', es' := run + [w'], es + [e];
    forall k | 0 <= k < |es'| ensures Step(run'[k], es'[k], run'[k + 1]) {
      if k < |es| { assert run'[k] == run[k] && es'[k] == es[k] && run'[k + 1] == run[k + 1]; }
    }
    assert run'[0] == run[0];
  }

  lemma Opened(w: World)
    requires w == InitWorld(1)
    ensures Exec(w, OpenOp(false, P2P, false, 8)).chans == w.chans + [Chan(P2P, false, 8, [], [], true)]
  {
    assert Pow2(3) == 8;
    Pow2IsPowerOfTwo(3);
  }

  lemma Prepare() returns (run: seq<World>, es: seq<Event>, w: World)
    ensures RunTo(run, es, w) && Scene(w, 0)
  {
    hide NextPow2, IsPowerOfTwo, RunTo;
    var w0 := InitWorld(1);
    run, es := [w0], [];
    assert RunTo(run, es, w0) by { Starts(w0); }
    Opened(w0);
    var w1 := Exec(w0, OpenOp(false, P2P, false, 8));
    run, es := Go(run, es, w0, Call(OpenOp(false, P2P, false, 8)), w1);
    w := Exec(w1, SubscribeOp(2, 0, -1));
    run, es := Go(run, es, w1, Call(SubscribeOp(2, 0, -1)), w);
    assert w.chans == Channels3() by { Bound(w1); }
  }

  lemma Bound(w: World)
    requires w.chans == InitWorld(1).chans + [Chan(P2P, false, 8, [], [], true)]
    ensures Subscribe(w, 2, 0, -1).0.chans == Channels3()
  {
    assert w.chans[2] == Chan(P2P, false, 8, [], [], true);
    assert w.chans[2].subs + [Sub(0, -1, true)] == [Sub(0, -1, true)];
  }

  lemma Starts(w: World)
    requires w == InitWorld(1)
    ensures RunTo([w], [], w)
  {
  }

  /** Room in channel 2: its threshold is its capacity. */
  lemma NoReserve()
    ensures Threshold(8) == 8
  {
  }

  lemma EmitPlain(w: World, n: nat, t: Task)
    requires Scene(w, n) && n < RQ_CAP && Plain(t)
    ensures Scene(Emit(w, 2, t).0, n + 1)
  {
    hide Threshold, Tagged, HasRefcount, Priority;
    NoReserve();
    TaggedHeld(t, 2);
    var m := Tagged(t, 2);
    var (s, ok) := Enqueue(w.sched, m, -1);
    SamePriority(m, w.sched.nextSeq);
    assert ok && |s.rq.queues[0]| == n + 1;
    assert Emit(w, 2, t).0 == Own(w.(sched := s), t);
  }

  lemma SamePriority(t: Task, serial: nat)
    ensures Priority(t.(serial := serial)) == Priority(t) && Held(t.(serial := serial)) == Held(t)
  {
  }

  lemma {:induction false} FillQueue(n: nat, t: Task) returns (run: seq<World>, es: seq<Event>, w: World)
    requires n <= RQ_CAP && Plain(t)
    ensures RunTo(run, es, w) && Scene(w, n)
  {
    hide RunTo, Emit, HasRefcount, Priority;
    if n == 0 {
      run, es, w := Prepare();
    } else {
      var w0;
      run, es, w0 := FillQueue(n - 1, t);
      EmitPlain(w0, n - 1, t);
      w := Exec(w0, EmitOp(2, t));
      run, es := Go(run, es, w0, Call(EmitOp(2, t)), w);
    }
  }

  /** With the RQ full at priority 0, the packet is refused twice: on the fast path and by the drain. */
  lemma PacketLost(w: World, t: Task)
    requires w.chans == Channels3() && |w.sched.rq.queues| == 4 && |w.sched.rq.queues[0]| == RQ_CAP && Packet(t)
    ensures EmitLoss(w, 2, t) == Held(t)
  {
    hide Threshold, Tagged, HasRefcount, Priority, Own, Deliver, Held, DrainLoss, SetRing, BufferLoss;
    NoReserve();
    TaggedHeld(t, 2);
    var m := Tagged(t, 2);
    SamePriority(m, w.sched.nextSeq);
    var s := Enqueue(w.sched, m, -1).0;
    assert NoQueueTakes(w.sched, m, -1);
    assert s.rq.queues == w.sched.rq.queues;
    RefusedTwice(w.(sched := s), t, Numbered(w, m));
  }

  lemma RefusedTwice(w: World, t: Task, m: Task)
    requires w.chans == Channels3() && |w.sched.rq.queues| == 4 && |w.sched.rq.queues[0]| == RQ_CAP && Priority(m) == 0
    ensures BufferLoss(w, 2, t, m) == Held(m)
  {
    hide HasRefcount, Priority, Own, Deliver, Held;
    var ch := w.chans[2];
    assert ch.ring + [m] == [m];
    var w0 := SetRing(w, 2, [m]);
    OwnFields(w0, t, w0.sched);
    var w2 := Own(w0, t);
    assert NoQueueTakes(w2.sched, m, -1);
    DrainOneLoss(w2, m);
  }

  lemma DrainOneLoss(w: World, m: Task)
    requires |w.chans| == 3 && w.chans[2] == Chan(P2P, false, 8, [m], [Sub(0, -1, true)], true)
    requires |w.sched.rq.queues| == 4 && NoQueueTakes(w.sched, m, -1)
    ensures DrainLoss(w, 2, 1) == Held(m)
  {
    hide Deliver, Held, NoQueueTakes;
    assert DrainLoss(Deliver(SetRing(w, 2, [m][1..]), w.chans[2], m), 2, 0) == multiset{};
  }

  /** The run: everybody keeps to the rules, and the packet's payload is lost for ever (LostIsForever). */
  lemma RefusedMessageLeaks(plain: Task, packet: Task) returns (run: seq<World>, es: seq<Event>)
    requires Plain(plain) && Packet(packet)
    ensures IsRun(run, es) && run[|es|].leaked == multiset{packet.payload}
  {
    hide RunTo, Emit, EmitLoss, HasRefcount, Priority;
    var w0;
    run, es, w0 := FillQueue(RQ_CAP, plain);
    var w1 := Exec(w0, AllocOp(packet.payload));
    run, es := Go(run, es, w0, Call(AllocOp(packet.payload)), w1);
    var w := Exec(w1, EmitOp(2, packet));
    run, es := Go(run, es, w1, Call(EmitOp(2, packet)), w);
    PacketLost(w1, packet);
    EmitLeaks(w1, 2, packet);
    RunOf(run, es, w);
    assert Held(packet) == multiset{packet.payload};
  }

  lemma RunOf(run: seq<World>, es: seq<Event>, w: World)
    requires RunTo(run, es, w)
    ensures IsRun(run, es) && run[|es|] == w
  {
  }
}
