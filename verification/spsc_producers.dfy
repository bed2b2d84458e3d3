/**
 The SPSC ring of src/ring_spsc.c with more than one producer.  gmk_chan_emit and gmk_chan_drain push
 to a worker's local queue from whatever thread they run on (src/chan.c, src/enqueue.c), so the ring's
 single producer is a rule for its users: here is what holds exactly as long as they keep it.
 */
module SpscProducers {
  import opened MpmcProtocol
  import opened SpscProtocol

  type Tid = nat

  /** The ring and its consumer, with prod unused, and one program counter per producer. */
  datatype Many<T> = Many(core: Spsc<T>, prods: map<Tid, Producer<T>>)

  /** The ring as producer t sees it. */
  function View<T>(m: Many<T>, t: Tid): Spsc<T>
    requires t in m.prods
  {
    m.core.(prod := m.prods[t])
  }

  ghost predicate PushBy<T(!new)>(m: Many<T>, t: Tid, m': Many<T>) {
    && SpscShape(m.core) && t in m.prods && t in m'.prods && m'.core.prod.PIdle?
    && m'.prods == m.prods[t := m'.prods[t]] && ProducerStep(View(m, t), View(m', t))
  }

  ghost predicate PopBy<T>(m: Many<T>, m': Many<T>) {
    SpscShape(m.core) && m'.prods == m.prods && ConsumerStep(m.core, m'.core)
  }

  ghost predicate ManyNext<T(!new)>(m: Many<T>, m': Many<T>) {
    PopBy(m, m') || exists t :: PushBy(m, t, m')
  }

  ghost predicate ManyInit<T>(m: Many<T>) {
    SpscInit(m.core) && forall t :: t in m.prods ==> m.prods[t].PIdle?
  }

  ghost predicate ManySteps<T(!new)>(run: seq<Many<T>>) {
    |run| > 0 && forall k :: 0 <= k < |run| - 1 ==> ManyNext(run[k], run[k + 1])
  }

  ghost predicate ManyRun<T(!new)>(run: seq<Many<T>>) {
    ManySteps(run) && ManyInit(run[0])
  }

  /** Between its load of tail and the end of its push. */
  predicate InPush<T>(p: Producer<T>) {
    !p.PIdle? && !p.PTail?
  }

  ghost predicate OneAtATime<T(!new)>(m: Many<T>) {
    forall t, u :: t in m.prods && u in m.prods && InPush(m.prods[t]) && InPush(m.prods[u]) ==> t == u
  }

  /** Every producer could be the only one. */
  ghost predicate ManyInv<T(!new)>(m: Many<T>) {
    SpscInv(m.core) && m.core.prod.PIdle? && forall t :: t in m.prods ==> SpscInv(View(m, t))
  }

  lemma PopKeeps<T(!new)>(m: Many<T>, m': Many<T>)
    requires ManyInv(m) && PopBy(m, m')
    ensures ManyInv(m')
  {
    hide SpscInv;
    assert SpscShape(m.core);
    ConsumerKeeps(m.core, m'.core);
    forall t | t in m'.prods ensures SpscInv(View(m', t)) {
      assert ConsumerStep(View(m, t), View(m', t));
      ConsumerKeeps(View(m, t), View(m', t));
    }
    assert m'.core.prod.PIdle?;
  }

  /** A producer outside a push asks nothing of the ring. */
  lemma OutsideIsFree<T>(s: Spsc<T>, p: Producer<T>)
    requires SpscInv(s) && !InPush(p)
    ensures SpscInv(s.(prod := p))
  {
  }

  /** A step that is not inside a push leaves the ring alone. */
  lemma OutsideStep<T(!new)>(s: Spsc<T>, s': Spsc<T>)
    requires SpscShape(s) && ProducerStep(s, s') && !InPush(s.prod)
    ensures s' == s.(prod := s'.prod)
  {
  }

  lemma PushKeeps<T(!new)>(m: Many<T>, t: Tid, m': Many<T>)
    requires ManyInv(m) && OneAtATime(m) && PushBy(m, t, m')
    ensures ManyInv(m')
  {
    hide SpscInv, ProducerStep;
    ProducerKeeps(View(m, t), View(m', t));
    OutsideIsFree(View(m', t), PIdle);
    assert m'.core == View(m', t).(prod := PIdle);
    forall u | u in m'.prods ensures SpscInv(View(m', u)) {
      if u != t {
        if InPush(m.prods[u]) {
          OutsideStep(View(m, t), View(m', t));
          assert m'.core == m.core && View(m', u) == View(m, u);
        } else {
          OutsideIsFree(m'.core, m'.prods[u]);
        }
      }
    }
  }

  /**
   As long as pushes do not overlap, any number of producers is as good as one: everything accepted is
   delivered in order or still buffered, and never more than cap elements are.
   */
  lemma {:induction false} OneAtATimeIsSafe<T(!new)>(run: seq<Many<T>>, k: nat)
    requires ManyRun(run) && k < |run| && forall j :: 0 <= j < k ==> OneAtATime(run[j])
    ensures ManyInv(run[k])
    ensures var s := run[k].core; s.delivered <= s.pushed && |s.pushed| == s.tail && |s.delivered| == s.head && s.tail <= s.head + s.cap
  {
    hide SpscShape;
    if k > 0 {
      OneAtATimeIsSafe(run, k - 1);
      var m, m' := run[k - 1], run[k];
      assert ManyNext(m, m');
      if PopBy(m, m') { PopKeeps(m, m'); } else { var t :| PushBy(m, t, m'); PushKeeps(m, t, m'); }
    }
  }

  // ---- overlapping pushes lose an element ---------------------------------------------------

  /** Producer t alone steps to pc p, and the ring to s. */
  function Moved<T>(m: Many<T>, t: Tid, s: Spsc<T>, p: Producer<T>): Many<T> {
    Many(s.(prod := PIdle), m.prods[t := p])
  }

  lemma Goes<T(!new)>(run: seq<Many<T>>, t: Tid, s: Spsc<T>) returns (run': seq<Many<T>>)
    requires ManySteps(run) && t in run[|run| - 1].prods
    requires SpscShape(run[|run| - 1].core) && ProducerStep(View(run[|run| - 1], t), s)
    ensures run <= run' && ManySteps(run') && run'[|run'| - 1] == Moved(run[|run| - 1], t, s, s.prod)
  {
    hide ProducerStep, ManyNext;
    var m := run[|run| - 1];
    var m' := Moved(m, t, s, s.prod);
    assert View(m', t) == s;
    run' := run + [m'];
    assert ManyNext(m, m') by { OneMore(m, t, m'); }
    forall k | 0 <= k < |run'| - 1 ensures ManyNext(run'[k], run'[k + 1]) {
      if k < |run| - 1 { assert run'[k] == run[k] && run'[k + 1] == run[k + 1]; }
    }
  }

  lemma OneMore<T(!new)>(m: Many<T>, t: Tid, m': Many<T>)
    requires PushBy(m, t, m')
    ensures ManyNext(m, m')
  {
  }

  /** Before the store of tail, with v in the slot. */
  ghost predicate AtStore<T>(m: Many<T>, t: Tid, v: T) {
    t in m.prods && m.prods[t] == PStore(v, m.core.tail)
  }

  /** The indices stay; only slots may be written. */
  ghost predicate SameCounters<T>(s: Spsc<T>, s': Spsc<T>) {
    s' == s.(buf := s'.buf) && |s'.buf| == |s.buf|
  }

  /** A producer inside a push with room left runs up to its store of tail. */
  lemma UpToStore<T(!new)>(run: seq<Many<T>>, t: Tid) returns (run': seq<Many<T>>)
    requires |run| > 0 && ManySteps(run) && SpscShape(run[|run| - 1].core)
    requires var m := run[|run| - 1]; t in m.prods && InPush(m.prods[t]) && m.prods[t].t == m.core.tail && m.core.prod.PIdle?
    requires var s := run[|run| - 1].core; !NoRoom(s.tail, s.head, s.cap)
    ensures run <= run' && ManySteps(run')
    ensures var m, m' := run[|run| - 1], run'[|run'| - 1];
      AtStore(m', t, m.prods[t].v) && SameCounters(m.core, m'.core) && m'.prods == m.prods[t := PStore(m.prods[t].v, m.core.tail)]
  {
    hide ManySteps, NoRoom, Slot, GoodCap;
    run' := run;
    var m := run[|run| - 1];
    var v, n := m.prods[t].v, m.core.tail;
    if m.prods[t].PHead? { run' := Goes(run', t, m.core.(prod := PCopy(v, n))); }
    if !m.prods[t].PStore? {
      var m1 := run'[|run'| - 1];
      assert m1.prods[t] == PCopy(v, n) && m1.core == m.core;
      run' := Goes(run', t, m.core.(prod := PStore(v, n), buf := m.core.buf[Slot(n, m.core.cap) := v]));
    }
  }

  /**
   Two producers inside a push, with room for one element at least: from every such state they can
   run on so that both pushes are accepted, but tail moves by one slot only.
   */
  lemma OverlapLoses<T(!new)>(m: Many<T>, t: Tid, u: Tid) returns (run: seq<Many<T>>)
    requires ManyInv(m) && t in m.prods && u in m.prods && t != u && InPush(m.prods[t]) && InPush(m.prods[u])
    requires m.core.tail < m.core.head + m.core.cap
    ensures ManySteps(run) && run[0] == m
    ensures var s, s' := m.core, run[|run| - 1].core;
      && s'.pushed == s.pushed + [m.prods[t].v, m.prods[u].v] && s'.tail == s.tail + 1 && s'.head == s.head
      && s'.delivered == s.delivered && |s'.pushed| > s'.tail
      && s'.cap == s.cap && |s'.buf| == |s.buf| && s'.cons == s.cons
    ensures run[|run| - 1].prods == m.prods[t := PIdle][u := PIdle]
  {
    hide ManySteps, Slot, GoodCap, NoRoom;
    TestsAreExact(m.core);
    assert SpscInv(View(m, t)) && SpscInv(View(m, u));
    assert ManySteps([m]) by { Still(m); }
    run := UpToStore([m], t);
    assert run[0] == m;
    run := UpToStore(run, u);
    var m1 := run[|run| - 1];
    run := Goes(run, t, m1.core.(prod := PIdle, tail := m.core.tail + 1, pushed := m1.core.pushed + [m.prods[t].v]));
    var m2 := run[|run| - 1];
    run := Goes(run, u, m2.core.(prod := PIdle, tail := m.core.tail + 1, pushed := m2.core.pushed + [m.prods[u].v]));
  }

  lemma Still<T(!new)>(m: Many<T>)
    ensures ManySteps([m])
  {
  }

  /** Two producers load tail one after the other. */
  lemma BothLoad<T(!new)>(cap: nat, x: T, a: T, b: T) returns (run: seq<Many<T>>)
    requires GoodCap(cap) && cap > 0
    ensures |run| > 0 && ManySteps(run) && ManyInit(run[0])
    ensures var m := run[|run| - 1];
      ManyInv(m) && m == Many(Spsc(cap, 0, 0, seq(cap, _ => x), PIdle, CIdle, [], []), map[0 := PHead(a, 0), 1 := PHead(b, 0)])
  {
    hide ManySteps, GoodCap, SpscInv, ManyInv;
    var core := Spsc(cap, 0, 0, seq(cap, _ => x), PIdle, CIdle, [], []);
    var m := Many(core, map[0 := PIdle, 1 := PIdle]);
    assert ManySteps([m]) by { Still(m); }
    run := Goes([m], 0, core.(prod := PTail(a)));
    run := Goes(run, 0, core.(prod := PHead(a, 0)));
    run := Goes(run, 1, core.(prod := PTail(b)));
    run := Goes(run, 1, core.(prod := PHead(b, 0)));
    var m1 := run[|run| - 1];
    assert m1.prods == map[0 := PHead(a, 0), 1 := PHead(b, 0)];
    BothLoaded(m1, a, b);
  }

  /** The consumer takes the one element that the counters show. */
  lemma TakesOne<T(!new)>(run: seq<Many<T>>) returns (run': seq<Many<T>>)
    requires |run| > 0 && ManySteps(run)
    requires var s := run[|run| - 1].core; SpscShape(s) && s.head == 0 && s.tail == 1 && s.cons.CIdle? && s.delivered == []
    ensures run <= run' && ManySteps(run')
    ensures var m, m' := run[|run| - 1], run'[|run'| - 1];
      m'.prods == m.prods && exists v :: m'.core == m.core.(head := 1, delivered := [v])
  {
    hide ManySteps, GoodCap, Slot;
    var s := run[|run| - 1].core;
    run' := Pops(run, s.(cons := CHead));
    run' := Pops(run', s.(cons := CTail(0)));
    run' := Pops(run', s.(cons := CCopy(0)));
    var v := s.buf[Slot(0, s.cap)];
    run' := Pops(run', s.(cons := CStore(0, v)));
    run' := Pops(run', s.(head := 1, delivered := [v]));
  }

  /** From initialisation on: two pushes accepted, one element delivered, and the ring is empty again. */
  lemma TwoProducersLose<T(!new)>(cap: nat, x: T, a: T, b: T) returns (run: seq<Many<T>>)
    requires GoodCap(cap) && cap > 0
    ensures ManyRun(run)
    ensures var m := run[|run| - 1];
      && m.prods == map[0 := PIdle, 1 := PIdle] && m.core.cons.CIdle?
      && m.core.pushed == [a, b] && |m.core.delivered| == 1 && m.core.head == m.core.tail == 1
  {
    hide ManySteps, GoodCap, ManyInv;
    run := BothLoad(cap, x, a, b);
    var m1 := run[|run| - 1];
    var rest := OverlapLoses(m1, 0, 1);
    run := Joined(run, rest);
    assert run[|run| - 1].prods == map[0 := PIdle, 1 := PIdle];
    run := TakesOne(run);
  }

  lemma BothLoaded<T(!new)>(m: Many<T>, a: T, b: T)
    requires m.core.head == m.core.tail == 0 && SpscShape(m.core) && m.core.prod.PIdle? && m.core.cons.CIdle?
    requires m.core.pushed == [] && m.core.delivered == [] && m.prods == map[0 := PHead(a, 0), 1 := PHead(b, 0)]
    ensures ManyInv(m)
  {
  }

  lemma Pops<T(!new)>(run: seq<Many<T>>, s: Spsc<T>) returns (run': seq<Many<T>>)
    requires ManySteps(run) && SpscShape(run[|run| - 1].core) && ConsumerStep(run[|run| - 1].core, s)
    ensures run <= run' && ManySteps(run') && run'[|run'| - 1] == run[|run| - 1].(core := s)
  {
    hide ConsumerStep;
    run' := run + [run[|run| - 1].(core := s)];
    forall k | 0 <= k < |run'| - 1 ensures ManyNext(run'[k], run'[k + 1]) {
      if k < |run| - 1 { assert run'[k] == run[k] && run'[k + 1] == run[k + 1]; }
    }
  }

  lemma Joined<T(!new)>(a: seq<Many<T>>, b: seq<Many<T>>) returns (run: seq<Many<T>>)
    requires ManySteps(a) && ManySteps(b) && a[|a| - 1] == b[0]
    ensures a <= run && ManySteps(run) && run[|run| - 1] == b[|b| - 1]
  {
    hide ManyNext;
    run := a + b[1..];
    forall k | 0 <= k < |run| - 1 ensures ManyNext(run[k], run[k + 1]) {
      if k < |a| - 1 {
        assert run[k] == a[k] && run[k + 1] == a[k + 1];
      } else {
        assert run[k] == b[k - |a| + 1] && run[k + 1] == b[k - |a| + 2];
      }
    }
  }
}
