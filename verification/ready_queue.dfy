/**
 The ready queue of src/sched_rq.c: four bounded FIFOs and weighted pop.  Each MPMC ring is
 represented by the FIFO that MpmcRing.Ring refines.
 */
module ReadyQueue {
  import opened Words
  import opened Tasks
  import opened MpmcProtocol
  import opened MpmcRing
  import opened Options

  const WEIGHTS: seq<nat> := [8, 4, 2, 1]

  datatype Rq = Rq(queues: seq<seq<Task>>, counters: seq<nat>)

  ghost predicate RqInv(r: Rq) {
    |r.queues| == 4 && |r.counters| == 4 && forall i :: 0 <= i < 4 ==> r.counters[i] <= WEIGHTS[i]
  }

  function RqPush(r: Rq, cap: nat, t: Task): (res: (Rq, bool))
    requires |r.queues| == 4
    ensures |res.0.queues| == 4 && res.0.counters == r.counters
  {
    var q := r.queues[Priority(t)];
    if |q| < cap then (r.(queues := r.queues[Priority(t) := q + [t]]), true) else (r, false)
  }

  /** First pass: the first non-empty queue from i on whose weight is not used up. */
  function Weighted(r: Rq, i: nat): (res: nat)
    requires |r.queues| == 4 && |r.counters| == 4 && i <= 4
    ensures i <= res <= 4
    decreases 4 - i
  {
    if i < 4 && !(r.counters[i] < WEIGHTS[i] && r.queues[i] != []) then Weighted(r, i + 1) else i
  }

  /** Second pass: the first non-empty queue from i on. */
  function AnyFrom(r: Rq, i: nat): (res: nat)
    requires |r.queues| == 4 && i <= 4
    ensures i <= res <= 4
    decreases 4 - i
  {
    if i < 4 && r.queues[i] == [] then AnyFrom(r, i + 1) else i
  }

  function Reset(r: Rq): Rq {
    r.(counters := [0, 0, 0, 0])
  }

  function Take(r: Rq, i: nat): Rq
    requires i < |r.queues| && i < |r.counters| && r.queues[i] != []
  {
    Rq(r.queues[i := r.queues[i][1..]], r.counters[i := r.counters[i] + 1])
  }

  /** The queue the next pop serves; 4 when all are empty. */
  function Served(r: Rq): (i: nat)
    requires |r.queues| == 4 && |r.counters| == 4
    ensures i <= 4
  {
    if Weighted(r, 0) < 4 then Weighted(r, 0) else AnyFrom(r, 0)
  }

  function RqPop(r: Rq): (res: (Rq, Option<Task>))
    requires |r.queues| == 4 && |r.counters| == 4
    ensures |res.0.queues| == 4 && |res.0.counters| == 4
  {
    WeightedFinds(r, 0); AnyFinds(r, 0);
    var i := Weighted(r, 0);
    if i < 4 then (Take(r, i), Some(r.queues[i][0]))
    else
      var j := AnyFrom(r, 0);
      if j < 4 then (Take(Reset(r), j), Some(r.queues[j][0])) else (Reset(r), None)
  }

  lemma {:induction false} WeightedFinds(r: Rq, i: nat)
    requires |r.queues| == 4 && |r.counters| == 4 && i <= 4
    ensures var w := Weighted(r, i);
      && (forall k :: i <= k < w ==> r.counters[k] >= WEIGHTS[k] || r.queues[k] == [])
      && (w < 4 ==> r.counters[w] < WEIGHTS[w] && r.queues[w] != [])
    decreases 4 - i
  {
    if Weighted(r, i) != i { WeightedFinds(r, i + 1); }
  }

  lemma {:induction false} AnyFinds(r: Rq, i: nat)
    requires |r.queues| == 4 && i <= 4
    ensures var w := AnyFrom(r, i); (forall k :: i <= k < w ==> r.queues[k] == []) && (w < 4 ==> r.queues[w] != [])
    decreases 4 - i
  {
    if AnyFrom(r, i) != i { AnyFinds(r, i + 1); }
  }

  ghost function AllOf(r: Rq): multiset<Task>
    requires |r.queues| == 4
  {
    multiset(r.queues[0]) + multiset(r.queues[1]) + multiset(r.queues[2]) + multiset(r.queues[3])
  }

  lemma TakeRemoves(r: Rq, i: nat)
    requires |r.queues| == 4 && |r.counters| == 4 && i < 4 && r.queues[i] != []
    ensures r.queues[i][0] in AllOf(r) && AllOf(Take(r, i)) == AllOf(r) - multiset{r.queues[i][0]}
  {
    assert r.queues[i] == [r.queues[i][0]] + r.queues[i][1..];
    assert r.queues[i][0] in multiset(r.queues[i]);
  }

  /** What a pop does: serve one queue, or find all empty; counters stay within the weights. */
  lemma RqPopServes(r: Rq)
    requires RqInv(r)
    ensures var (r', t) := RqPop(r);
      && RqInv(r')
      && (t.None? <==> forall i :: 0 <= i < 4 ==> r.queues[i] == [])
      && (t.None? ==> r'.queues == r.queues)
      && (t.Some? ==> Served(r) < 4 && r.queues[Served(r)] != [] && t.value == r.queues[Served(r)][0])
      && (t.Some? ==> r'.queues == r.queues[Served(r) := r.queues[Served(r)][1..]])
  {
    WeightedFinds(r, 0); AnyFinds(r, 0);
  }

  /** A pop removes exactly the task it returns, and fails exactly when nothing is queued. */
  lemma RqPopCorrect(r: Rq)
    requires RqInv(r)
    ensures var (r', t) := RqPop(r);
      && RqInv(r')
      && (t.None? <==> AllOf(r) == multiset{}) && (t.None? ==> r'.queues == r.queues)
      && (t.Some? ==> t.value in AllOf(r) && AllOf(r') == AllOf(r) - multiset{t.value})
  {
    RqPopServes(r);
    var (r', t) := RqPop(r);
    if t.Some? {
      TakeRemoves(r, Served(r));
      assert AllOf(r') == AllOf(Take(r, Served(r)));
    } else {
      assert AllOf(r) == multiset{};
    }
  }

  /** Queue i has a task and has not used up its weight. */
  predicate Ready(r: Rq, i: nat)
    requires |r.queues| == 4 && |r.counters| == 4 && i < 4
  {
    r.queues[i] != [] && r.counters[i] < WEIGHTS[i]
  }

  /** The first task of queue i is gone, the other queues are as they were. */
  ghost predicate TookFrom(r: Rq, i: nat, r': Rq, t: Option<Task>)
    requires |r.queues| == 4 && |r'.queues| == 4 && i < 4
  {
    && r.queues[i] != [] && t == Some(r.queues[i][0]) && r'.queues[i] == r.queues[i][1..]
    && forall j :: 0 <= j < 4 && j != i ==> r'.queues[j] == r.queues[j]
  }

  /**
   The weighted choice, queue by queue: the first ready queue is served and its counter raised; with
   none ready the counters start afresh, and the first non-empty queue is served and counted.
   */
  ghost predicate PoppedByWeight(r: Rq, r': Rq, t: Option<Task>)
    requires |r.queues| == 4 && |r.counters| == 4
  {
    && |r'.queues| == 4 && |r'.counters| == 4
    && (forall i: nat :: i < 4 && Ready(r, i) && (forall j: nat :: j < i ==> !Ready(r, j)) ==>
          TookFrom(r, i, r', t) && r'.counters == r.counters[i := r.counters[i] + 1])
    && ((forall i: nat :: i < 4 ==> !Ready(r, i)) ==>
          (forall i: nat :: i < 4 && r.queues[i] != [] && (forall j: nat :: j < i ==> r.queues[j] == []) ==>
             TookFrom(r, i, r', t) && r'.counters == [0, 0, 0, 0][i := 1]))
    && ((forall i: nat :: i < 4 ==> r.queues[i] == []) ==> t == None && r' == Rq(r.queues, [0, 0, 0, 0]))
  }

  lemma PopIsWeighted(r: Rq)
    requires |r.queues| == 4 && |r.counters| == 4
    ensures var (r', t) := RqPop(r); PoppedByWeight(r, r', t)
  {
    hide Weighted, AnyFrom, TookFrom, Take, Ready;
    var w, a := Weighted(r, 0), AnyFrom(r, 0);
    var (r', t) := RqPop(r);
    WeightedIsReady(r);
    AnyFinds(r, 0);
    if w < 4 {
      TakeTakes(r, w);
      assert forall i: nat :: i < 4 && Ready(r, i) && (forall j: nat :: j < i ==> !Ready(r, j)) ==> i == w;
      assert r.queues[w] != [] by { ReadyHasTask(r, w); }
    } else if a < 4 {
      TakeTakes(Reset(r), a);
      SameQueues(r, a, r', t);
      assert forall i: nat :: i < 4 && r.queues[i] != [] && (forall j: nat :: j < i ==> r.queues[j] == []) ==> i == a;
    }
  }

  lemma WeightedIsReady(r: Rq)
    requires |r.queues| == 4 && |r.counters| == 4
    ensures var w := Weighted(r, 0); (forall j: nat :: j < w ==> !Ready(r, j)) && (w < 4 ==> Ready(r, w))
  {
    hide Weighted;
    WeightedFinds(r, 0);
  }

  lemma ReadyHasTask(r: Rq, i: nat)
    requires |r.queues| == 4 && |r.counters| == 4 && i < 4 && Ready(r, i)
    ensures r.queues[i] != []
  {
  }

  lemma TakeTakes(r: Rq, i: nat)
    requires |r.queues| == 4 && |r.counters| == 4 && i < 4
    ensures r.queues[i] != [] ==>
      |Take(r, i).queues| == 4 && TookFrom(r, i, Take(r, i), Some(r.queues[i][0])) && Take(r, i).counters == r.counters[i := r.counters[i] + 1]
  {
  }

  lemma SameQueues(r: Rq, i: nat, r': Rq, t: Option<Task>)
    requires |r.queues| == 4 && |r'.queues| == 4 && i < 4 && TookFrom(Reset(r), i, r', t)
    ensures TookFrom(r, i, r', t) && [0, 0, 0, 0][i := 0 + 1] == [0, 0, 0, 0][i := 1]
  {
  }

  lemma RqPushCorrect(r: Rq, cap: nat, t: Task)
    requires RqInv(r)
    ensures var (r', ok) := RqPush(r, cap, t);
      && RqInv(r')
      && (ok <==> |r.queues[Priority(t)]| < cap)
      && (forall i :: 0 <= i < 4 ==> r'.queues[i] == if ok && i == Priority(t) then r.queues[i] + [t] else r.queues[i])
      && AllOf(r') == AllOf(r) + (if ok then multiset{t} else multiset{})
      && forall i :: 0 <= i < 4 ==> r.queues[i] <= r'.queues[i]
  {
  }

  // ---- no starvation -----------------------------------------------------------

  /** What queues before p may still take in this round. */
  function Ahead(c: seq<nat>, p: nat): (n: int)
    requires |c| == 4 && p <= 4
  {
    if p == 0 then 0 else Ahead(c, p - 1) + WEIGHTS[p - 1] - c[p - 1]
  }

  /** An upper bound on the pops that may still pass over queue p. */
  function Patience(c: seq<nat>, p: nat): int
    requires |c| == 4 && p < 4
  {
    if c[p] < WEIGHTS[p] then Ahead(c, p)
    else Ahead(c, 4) + Ahead([0, 0, 0, 0], p)
  }

  /** (15 - w_p) + the weights before p: 7, 19, 25, 28. */
  function Bound(p: nat): nat
    requires p < 4
  {
    [7, 19, 25, 28][p]
  }

  lemma PatienceWithinBound(c: seq<nat>, p: nat)
    requires |c| == 4 && p < 4 && forall i :: 0 <= i < 4 ==> c[i] <= WEIGHTS[i]
    ensures 0 <= Patience(c, p) <= Bound(p)
  {
    AheadValues(c);
    AheadValues([0, 0, 0, 0]);
  }

  lemma AheadValues(c: seq<nat>)
    requires |c| == 4
    ensures Ahead(c, 0) == 0 && Ahead(c, 1) + c[0] == 8 && Ahead(c, 2) + c[0] + c[1] == 12
    ensures Ahead(c, 3) + c[0] + c[1] + c[2] == 14 && Ahead(c, 4) + c[0] + c[1] + c[2] + c[3] == 15
  {
  }

  /** A pop that passes over a non-empty queue uses up its patience. */
  lemma PassingCosts(r: Rq, p: nat)
    requires RqInv(r) && p < 4 && r.queues[p] != [] && Served(r) != p
    ensures Patience(RqPop(r).0.counters, p) < Patience(r.counters, p)
  {
    WeightedFinds(r, 0); AnyFinds(r, 0);
    AheadValues(r.counters);
    AheadValues(RqPop(r).0.counters);
    AheadValues([0, 0, 0, 0]);
  }

  datatype RqEvent = PushEv(t: Task) | PopEv

  function After(r: Rq, cap: nat, e: RqEvent): (res: Rq)
    requires |r.queues| == 4 && |r.counters| == 4
    ensures |res.queues| == 4 && |res.counters| == 4
  {
    if e.PushEv? then RqPush(r, cap, e.t).0 else RqPop(r).0
  }

  /** Queue p is non-empty at every pop of the run and is never the one served. */
  ghost predicate Starves(r: Rq, cap: nat, es: seq<RqEvent>, p: nat)
    requires |r.queues| == 4 && |r.counters| == 4 && p < 4
    decreases |es|
  {
    es != [] ==>
      && (es[0].PopEv? ==> r.queues[p] != [] && Served(r) != p)
      && Starves(After(r, cap, es[0]), cap, es[1..], p)
  }

  function Pops(es: seq<RqEvent>): nat {
    if es == [] then 0 else (if es[0].PopEv? then 1 else 0) + Pops(es[1..])
  }

  /** Whatever is pushed in between, a waiting queue is passed over at most Bound(p) times in a row. */
  lemma {:induction false} NoStarvation(r: Rq, cap: nat, es: seq<RqEvent>, p: nat)
    requires RqInv(r) && p < 4 && Starves(r, cap, es, p)
    ensures Pops(es) <= Patience(r.counters, p) <= Bound(p)
    decreases |es|
  {
    PatienceWithinBound(r.counters, p);
    if es != [] {
      var r' := After(r, cap, es[0]);
      if es[0].PopEv? { RqPopCorrect(r); PassingCosts(r, p); } else { RqPushCorrect(r, cap, es[0].t); }
      NoStarvation(r', cap, es[1..], p);
    }
  }

  function PopTimes(n: nat): seq<RqEvent> {
    if n == 0 then [] else [PopEv] + PopTimes(n - 1)
  }

  lemma {:induction false} PopTimesCount(n: nat)
    ensures Pops(PopTimes(n)) == n
  {
    if n > 0 { PopTimesCount(n - 1); assert PopTimes(n)[1..] == PopTimes(n - 1); }
  }

  ghost predicate Saturated(r: Rq, n: nat) {
    RqInv(r) && forall i :: 0 <= i < 4 ==> |r.queues[i]| > n
  }

  lemma BackedUpPasses(r: Rq, p: nat)
    requires RqInv(r) && (forall i :: 0 <= i < 4 ==> r.queues[i] != []) && p < 4 && Patience(r.counters, p) > 0
    ensures Served(r) != p && Patience(RqPop(r).0.counters, p) == Patience(r.counters, p) - 1
  {
    WeightedFinds(r, 0); AnyFinds(r, 0);
    AheadValues(r.counters);
    AheadValues(RqPop(r).0.counters);
    AheadValues([0, 0, 0, 0]);
  }

  lemma SaturatedStep(r: Rq, p: nat, n: nat)
    requires Saturated(r, n) && p < 4 && n == Patience(r.counters, p) > 0
    ensures Served(r) != p && Saturated(RqPop(r).0, n - 1) && Patience(RqPop(r).0.counters, p) == n - 1
  {
    hide Patience;
    RqPopServes(r);
    BackedUpPasses(r, p);
  }

  /** The bound is met: with all queues backed up, queue p waits for exactly its patience. */
  lemma {:induction false} BackedUpQueueWaits(r: Rq, cap: nat, p: nat, n: nat)
    requires p < 4 && Saturated(r, n) && n == Patience(r.counters, p)
    ensures Starves(r, cap, PopTimes(n), p)
    decreases n
  {
    if n > 0 {
      SaturatedStep(r, p, n);
      BackedUpQueueWaits(RqPop(r).0, cap, p, n - 1);
      assert PopTimes(n)[1..] == PopTimes(n - 1);
    }
  }

  /** Bound(p) cannot be improved: it is reached when queue p has just used up its own weight. */
  lemma BoundIsTight(r: Rq, cap: nat, p: nat)
    requires p < 4 && Saturated(r, Bound(p)) && r.counters == [0, 0, 0, 0][p := WEIGHTS[p]]
    ensures Starves(r, cap, PopTimes(Bound(p)), p) && Pops(PopTimes(Bound(p))) == Bound(p)
  {
    AheadValues(r.counters);
    AheadValues([0, 0, 0, 0]);
    BackedUpQueueWaits(r, cap, p, Bound(p));
    PopTimesCount(Bound(p));
  }

  // ---- the bounds are reached from initialisation -------------------------------------------

  /** gmk_rq_init. */
  function Fresh(): Rq {
    Rq([[], [], [], []], [0, 0, 0, 0])
  }

  function RqRun(r: Rq, cap: nat, es: seq<RqEvent>): (res: Rq)
    requires |r.queues| == 4 && |r.counters| == 4
    ensures |res.queues| == 4 && |res.counters| == 4
    decreases |es|
  {
    if es == [] then r else RqRun(After(r, cap, es[0]), cap, es[1..])
  }

  lemma {:induction false} RqRunConcat(r: Rq, cap: nat, a: seq<RqEvent>, b: seq<RqEvent>)
    requires |r.queues| == 4 && |r.counters| == 4
    ensures RqRun(r, cap, a + b) == RqRun(RqRun(r, cap, a), cap, b)
    decreases |a|
  {
    hide After;
    if a == [] {
      assert a + b == b;
    } else {
      assert (a + b)[1..] == a[1..] + b;
      RqRunConcat(After(r, cap, a[0]), cap, a[1..], b);
    }
  }

  /** A task of priority p. */
  function Sample(p: nat): Task {
    Task(0, p, 0, 0, 0, 0, 0, 0, 0, 0)
  }

  lemma SamplePriority(p: nat)
    requires p < 4
    ensures Priority(Sample(p)) == p
  {
    assert And(0, 3) == 0 && And(1, 3) == 1 && And(2, 3) == 2 && And(3, 3) == 3;
  }

  /** k tasks of priority p pass through an otherwise empty queue. */
  lemma {:induction false} UseUpWeight(cap: nat, p: nat, k: nat) returns (es: seq<RqEvent>)
    requires p < 4 && k <= WEIGHTS[p] && cap > 0
    ensures RqRun(Fresh(), cap, es) == Rq([[], [], [], []], [0, 0, 0, 0][p := k])
  {
    es := [];
    if k > 0 {
      es := UseUpWeight(cap, p, k - 1);
      var turn := [PushEv(Sample(p)), PopEv];
      RqRunConcat(Fresh(), cap, es, turn);
      OneTurn(cap, p, k - 1);
      es := es + turn;
    }
  }

  lemma OneTurn(cap: nat, p: nat, k: nat)
    requires p < 4 && k < WEIGHTS[p] && cap > 0
    ensures RqRun(Rq([[], [], [], []], [0, 0, 0, 0][p := k]), cap, [PushEv(Sample(p)), PopEv]) ==
            Rq([[], [], [], []], [0, 0, 0, 0][p := k + 1])
  {
    hide After, Sample;
    var r := Rq([[], [], [], []], [0, 0, 0, 0][p := k]);
    var es := [PushEv(Sample(p)), PopEv];
    SamplePriority(p);
    PushThenPop(r, cap, p, Sample(p));
    var r1 := After(r, cap, es[0]);
    assert es[1..] == [PopEv] && [PopEv][1..] == [];
    assert RqRun(After(r1, cap, PopEv), cap, []) == After(r1, cap, PopEv);
    assert [0, 0, 0, 0][p := k][p := k + 1] == [0, 0, 0, 0][p := k + 1];
  }

  /** With nothing else queued, a pop serves the task just pushed. */
  lemma PushThenPop(r: Rq, cap: nat, p: nat, t: Task)
    requires p < 4 && cap > 0 && Priority(t) == p && |r.queues| == |r.counters| == 4 && r.counters[p] < WEIGHTS[p]
    requires forall i :: 0 <= i < 4 ==> r.queues[i] == []
    ensures After(After(r, cap, PushEv(t)), cap, PopEv) == Rq(r.queues, r.counters[p := r.counters[p] + 1])
  {
    hide Priority;
    var r1 := After(r, cap, PushEv(t));
    assert [] + [t] == [t];
    assert r1 == Rq(r.queues[p := [t]], r.counters);
    WeightedFinds(r1, 0);
    assert Weighted(r1, 0) == p;
    assert [t][1..] == r.queues[p];
    assert r.queues[p := [t]][p := r.queues[p]] == r.queues;
  }

  /** n more tasks of priority i. */
  lemma {:induction false} BackUp(r: Rq, cap: nat, i: nat, n: nat) returns (es: seq<RqEvent>)
    requires |r.queues| == 4 && |r.counters| == 4 && i < 4 && |r.queues[i]| + n <= cap
    ensures var r' := RqRun(r, cap, es);
      && r'.counters == r.counters && |r'.queues[i]| == |r.queues[i]| + n
      && forall j :: 0 <= j < 4 && j != i ==> r'.queues[j] == r.queues[j]
    decreases n
  {
    hide Sample;
    es := [];
    if n > 0 {
      SamplePriority(i);
      var r1 := After(r, cap, PushEv(Sample(i)));
      var rest := BackUp(r1, cap, i, n - 1);
      es := [PushEv(Sample(i))] + rest;
      assert es[1..] == rest;
    }
  }

  /** Whatever the capacity, as long as it can hold the backlog: from initialisation on, pushes and pops lead to the worst case. */
  lemma BoundIsReached(cap: nat, p: nat) returns (setup: seq<RqEvent>)
    requires p < 4 && cap > Bound(p)
    ensures Starves(RqRun(Fresh(), cap, setup), cap, PopTimes(Bound(p)), p) && Pops(PopTimes(Bound(p))) == Bound(p)
  {
    hide RqRun, Starves, PopTimes, Pops;
    setup := UseUpWeight(cap, p, WEIGHTS[p]);
    for i := 0 to 4
      invariant var r := RqRun(Fresh(), cap, setup);
        && r.counters == [0, 0, 0, 0][p := WEIGHTS[p]]
        && (forall j :: 0 <= j < i ==> |r.queues[j]| == Bound(p) + 1) && forall j :: i <= j < 4 ==> r.queues[j] == []
    {
      var more := BackUp(RqRun(Fresh(), cap, setup), cap, i, Bound(p) + 1);
      RqRunConcat(Fresh(), cap, setup, more);
      setup := setup + more;
    }
    BoundIsTight(RqRun(Fresh(), cap, setup), cap, p);
  }

  /** The counters play no part in the second pass, nor in what is queued. */
  lemma {:induction false} AnyReset(r: Rq, i: nat)
    requires |r.queues| == 4 && i <= 4
    ensures AnyFrom(Reset(r), i) == AnyFrom(r, i)
    decreases 4 - i
  {
    if i < 4 { AnyReset(r, i + 1); }
  }

  lemma AllReset(r: Rq)
    requires |r.queues| == 4
    ensures |Reset(r).queues| == 4 && AllOf(Reset(r)) == AllOf(r)
  {
  }

  // ---- the queue as the source updates it: four rings and the pop counters ----------------

  class Queue {
    const cap: nat
    const ring0: Ring<Task>
    const ring1: Ring<Task>
    const ring2: Ring<Task>
    const ring3: Ring<Task>
    var counters: seq<nat>

    /** The ring of priority i. */
    function RingOf(i: nat): Ring<Task>
      requires i < 4
    {
      if i == 0 then ring0 else if i == 1 then ring1 else if i == 2 then ring2 else ring3
    }

    ghost function Frame(): set<object> {
      {this, ring0, ring0.cells, ring1, ring1.cells, ring2, ring2.cells, ring3, ring3.cells}
    }

    /** The rings do not share memory. */
    ghost predicate Apart() {
      forall i: nat, j: nat :: i < j < 4 ==> RingOf(i) != RingOf(j) && RingOf(i).cells != RingOf(j).cells
    }

    ghost predicate Valid()
      reads Frame()
    {
      && cap >= 2 && Apart() && (forall i: nat :: i < 4 ==> RingOf(i).Valid() && RingOf(i).cap == cap)
      && |counters| == 4 && forall i :: 0 <= i < 4 ==> counters[i] <= WEIGHTS[i]
    }

    ghost function State(): Rq
      reads Frame()
    {
      Rq([ring0.Contents, ring1.Contents, ring2.Contents, ring3.Contents], counters)
    }

    /** gmk_rq_init. */
    constructor (capPerQueue: nat)
      requires GoodCap(capPerQueue) && capPerQueue >= 2
      ensures cap == capPerQueue && Valid() && fresh(Frame()) && State() == Rq([[], [], [], []], [0, 0, 0, 0])
    {
      hide GoodCap, Holds, Slot;
      cap := capPerQueue;
      ring0 := new Ring<Task>(capPerQueue);
      ring1 := new Ring<Task>(capPerQueue);
      ring2 := new Ring<Task>(capPerQueue);
      ring3 := new Ring<Task>(capPerQueue);
      counters := [0, 0, 0, 0];
    }

    lemma Bounds()
      requires Valid()
      ensures RqInv(State()) && forall i :: 0 <= i < 4 ==> |State().queues[i]| <= cap && State().queues[i] == RingOf(i).Contents
    {
      hide Holds, Slot, GoodCap;
      forall i: nat | i < 4 ensures |State().queues[i]| <= cap && State().queues[i] == RingOf(i).Contents {
        assert RingOf(i).Valid();
        RingOf(i).Within();
      }
    }

    /** gmk_rq_push: the task goes to the ring of its priority, or is refused when that is full. */
    method Push(t: Task) returns (ok: bool)
      requires Valid()
      modifies Frame()
      ensures Valid() && (State(), ok) == RqPush(old(State()), cap, t)
      ensures AllOf(State()) == AllOf(old(State())) + (if ok then multiset{t} else multiset{})
    {
      hide RqInv, AllOf, Holds, Slot, GoodCap;
      Bounds();
      RqPushCorrect(State(), cap, t);
      var prio := Priority(t);
      var spurious: nat := *;
      ok := RingOf(prio).Push(t, spurious);
      assert State().queues == if ok then old(State()).queues[prio := old(State()).queues[prio] + [t]] else old(State()).queues;
    }

    /** One MPMC pop of sub-queue i. */
    method PopRing(i: nat) returns (r: Option<Task>)
      requires Valid() && i < 4
      modifies Frame() - {this}
      ensures Valid() && counters == old(counters)
      ensures r.None? <==> old(State()).queues[i] == []
      ensures r.None? ==> State() == old(State())
      ensures r.Some? ==> r.value == old(State()).queues[i][0]
      ensures r.Some? ==> State().queues == old(State()).queues[i := old(State()).queues[i][1..]]
    {
      hide Holds, Slot, GoodCap, RqInv;
      Bounds();
      var spurious: nat := *;
      r := RingOf(i).Pop(spurious);
      ghost var q := old(State()).queues;
      assert State().queues == if r.Some? then q[i := q[i][1..]] else q;
    }

    /** A pop of sub-queue i that is counted when it yields a task. */
    method PopFrom(i: nat) returns (r: Option<Task>)
      requires Valid() && i < 4 && counters[i] < WEIGHTS[i]
      modifies Frame()
      ensures Valid()
      ensures r.None? <==> old(State()).queues[i] == []
      ensures r.None? ==> State() == old(State())
      ensures r.Some? ==> r.value == old(State()).queues[i][0] && State() == Take(old(State()), i)
    {
      hide Holds, Slot, GoodCap;
      r := PopRing(i);
      if r.Some? { CountPop(i); }
    }

    method CountPop(i: nat)
      requires Valid() && i < 4 && counters[i] < WEIGHTS[i]
      modifies this`counters
      ensures Valid() && State() == Rq(old(State()).queues, old(counters)[i := old(counters)[i] + 1])
    {
      hide Holds, Slot, GoodCap;
      counters := counters[i := counters[i] + 1];
    }

    /** First pass: by weight. */
    method PopWeighted() returns (r: Option<Task>)
      requires Valid()
      modifies Frame()
      ensures Valid()
      ensures var w := Weighted(old(State()), 0);
        if w < 4 && old(State()).queues[w] != [] then r == Some(old(State()).queues[w][0]) && State() == Take(old(State()), w)
        else r.None? && State() == old(State())
    {
      hide Holds, Slot, GoodCap, Take;
      ghost var s := State();
      WeightedFinds(s, 0);
      for prio := 0 to 4
        invariant Valid() && State() == s && Weighted(s, 0) == Weighted(s, prio)
      {
        if counters[prio] < WEIGHTS[prio] {
          r := PopFrom(prio);
          if r.Some? { return r; }
        }
      }
      return None;
    }

    /** Second pass, with the counters reset: any queue. */
    method PopAny() returns (r: Option<Task>)
      requires Valid() && counters == [0, 0, 0, 0]
      modifies Frame()
      ensures Valid()
      ensures var w := AnyFrom(old(State()), 0);
        if w < 4 && old(State()).queues[w] != [] then r == Some(old(State()).queues[w][0]) && State() == Take(old(State()), w)
        else r.None? && State() == old(State())
    {
      hide Holds, Slot, GoodCap, Take;
      ghost var s := State();
      AnyFinds(s, 0);
      for prio := 0 to 4
        invariant Valid() && counters == [0, 0, 0, 0] && State() == s && AnyFrom(s, 0) == AnyFrom(s, prio)
      {
        r := PopFrom(prio);
        if r.Some? { return r; }
      }
      return None;
    }

    method ResetCounters()
      requires Valid()
      modifies this`counters
      ensures Valid() && counters == [0, 0, 0, 0] && State() == Reset(old(State()))
    {
      hide Holds, Slot, GoodCap;
      counters := [0, 0, 0, 0];
    }

    /** gmk_rq_pop: fails exactly when all four rings are empty, and removes exactly the task it returns. */
    method Pop() returns (r: Option<Task>)
      requires Valid()
      modifies Frame()
      ensures Valid() && (State(), r) == RqPop(old(State())) && PoppedByWeight(old(State()), State(), r)
      ensures r.None? <==> forall i :: 0 <= i < 4 ==> old(State()).queues[i] == []
      ensures AllOf(old(State())) == AllOf(State()) + (if r.Some? then multiset{r.value} else multiset{})
    {
      hide Take, AllOf, Valid, Weighted, AnyFrom, PoppedByWeight;
      ghost var s := State();
      Bounds();
      RqPopServes(s);
      RqPopCorrect(s);
      PopIsWeighted(s);
      WeightedFinds(s, 0);
      AnyFinds(Reset(s), 0);
      AnyReset(s, 0);
      AllReset(s);
      r := PopWeighted();
      if r.Some? { return r; }
      ResetCounters();
      r := PopAny();
    }
  }
}
