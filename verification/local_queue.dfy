/** The per-worker local queue of src/sched_lq.c over its SPSC ring: the yield reserve. */
module LocalQueue {
  import opened Words
  import opened Tasks
  import opened MpmcProtocol
  import opened Options
  import opened SpscRing

  const YIELD_RESERVE_PCT: nat := 25

  /** gmk_lq_init: cap - (cap * 25 / 100) in 32-bit arithmetic. */
  function Watermark(cap: nat): int {
    cap - Wrap(cap * YIELD_RESERVE_PCT) / 100
  }

  /** The watermark leaves room for normal pushes at every capacity, and is three quarters while 25 * cap fits 32 bits. */
  lemma WatermarkInRange(cap: nat)
    requires GoodCap(cap)
    ensures 0 < Watermark(cap) <= cap
    ensures cap * YIELD_RESERVE_PCT < TWO32 && cap % 4 == 0 ==> Watermark(cap) == 3 * (cap / 4)
  {
  }

  function CountYields(yielded: seq<bool>): nat {
    if yielded == [] then 0 else (if yielded[0] then 1 else 0) + CountYields(yielded[1..])
  }

  lemma {:induction false} CountAppend(a: seq<bool>, b: bool)
    ensures CountYields(a + [b]) == CountYields(a) + (if b then 1 else 0)
    ensures CountYields(a) <= |a|
  {
    if a == [] {
      assert a + [b] == [b];
    } else {
      assert (a + [b])[1..] == a[1..] + [b];
      CountAppend(a[1..], b);
    }
  }

  // ---- runs of one queue --------------------------------------------------------------

  /** The queued tasks, each with whether it came through a yield push. */
  datatype LqState = LqState(tasks: seq<Task>, yielded: seq<bool>)

  datatype LqOp = PushOp(t: Task) | YieldOp(t: Task) | PopOp

  /** What one call does to a queue of this capacity; false when it fails. */
  function LqStep(cap: nat, s: LqState, op: LqOp): (LqState, bool) {
    match op
    case PushOp(t) =>
      if |s.tasks| < Watermark(cap) then (LqState(s.tasks + [t], s.yielded + [false]), true) else (s, false)
    case YieldOp(t) =>
      if |s.tasks| < cap then (LqState(s.tasks + [t], s.yielded + [true]), true) else (s, false)
    case PopOp =>
      if s.tasks != [] && s.yielded != [] then (LqState(s.tasks[1..], s.yielded[1..]), true) else (s, false)
  }

  function LqRun(cap: nat, s: LqState, ops: seq<LqOp>): LqState
    decreases |ops|
  {
    if ops == [] then s else LqRun(cap, LqStep(cap, s, ops[0]).0, ops[1..])
  }

  /** Normal tasks stay within the watermark and all tasks within the capacity. */
  ghost predicate LqInv(cap: nat, s: LqState) {
    && |s.yielded| == |s.tasks| <= cap
    && |s.yielded| - CountYields(s.yielded) <= Watermark(cap)
  }

  lemma StepKeepsReserve(cap: nat, s: LqState, op: LqOp)
    requires GoodCap(cap) && LqInv(cap, s)
    ensures LqInv(cap, LqStep(cap, s, op).0)
  {
    hide Watermark, GoodCap;
    WatermarkInRange(cap);
    match op {
      case PushOp(_) => CountAppend(s.yielded, false);
      case YieldOp(_) => CountAppend(s.yielded, true);
      case PopOp =>
    }
  }

  /**
   After any calls on a fresh queue: normal tasks never exceed the watermark, so a yield push fails
   only when at least cap - watermark yielded tasks are queued.
   */
  lemma ReserveHolds(cap: nat, ops: seq<LqOp>, t: Task)
    requires GoodCap(cap)
    ensures var s := LqRun(cap, LqState([], []), ops);
      && LqInv(cap, s)
      && (!LqStep(cap, s, YieldOp(t)).1 ==> CountYields(s.yielded) >= cap - Watermark(cap))
  {
    WatermarkInRange(cap);
    RunKeepsReserve(cap, LqState([], []), ops);
  }

  lemma {:induction false} RunKeepsReserve(cap: nat, s: LqState, ops: seq<LqOp>)
    requires GoodCap(cap) && LqInv(cap, s)
    ensures LqInv(cap, LqRun(cap, s, ops))
    decreases |ops|
  {
    hide LqInv, LqStep;
    if ops != [] {
      StepKeepsReserve(cap, s, ops[0]);
      RunKeepsReserve(cap, LqStep(cap, s, ops[0]).0, ops[1..]);
    }
  }

  class Lq {
    const ring: LocalRing<Task>
    const watermark: int

    ghost var yielded: seq<bool>  // which queued tasks came through a yield push

    ghost function Frame(): set<object> {
      {this, ring, ring.buf}
    }

    ghost function State(): LqState
      reads this, ring
    {
      LqState(ring.Contents, yielded)
    }

    ghost predicate Valid()
      reads this, ring, ring.buf
    {
      ring.Valid() && watermark == Watermark(ring.cap) && LqInv(ring.cap, State())
    }

    constructor (cap: nat)
      requires GoodCap(cap)
      ensures Valid() && fresh(ring) && fresh(ring.buf) && ring.cap == cap && State() == LqState([], [])
    {
      ring := new LocalRing<Task>(cap);
      watermark := Watermark(cap);
      yielded := [];
      new;
      WatermarkInRange(cap);
    }

    /** Normal push: refused exactly at the watermark. */
    method Push(t: Task) returns (ok: bool)
      requires Valid()
      modifies this, ring, ring.buf
      ensures Valid() && (State(), ok) == LqStep(ring.cap, old(State()), PushOp(t))
      ensures ok <==> |old(ring.Contents)| < watermark
    {
      hide Watermark;
      WatermarkInRange(ring.cap);
      StepKeepsReserve(ring.cap, State(), PushOp(t));
      var n := ring.Count();
      if n >= watermark { return false; }
      ok := ring.Push(t);
      yielded := yielded + [false];
    }

    /** Yield push: fails only when the yielded tasks alone fill at least the reserve. */
    method PushYield(t: Task) returns (ok: bool)
      requires Valid()
      modifies this, ring, ring.buf
      ensures Valid() && (State(), ok) == LqStep(ring.cap, old(State()), YieldOp(t))
      ensures !ok ==> CountYields(old(yielded)) >= ring.cap - watermark
    {
      hide Watermark;
      StepKeepsReserve(ring.cap, State(), YieldOp(t));
      ok := ring.Push(t);
      if ok { yielded := yielded + [true]; }
    }

    method Pop() returns (r: Option<Task>)
      requires Valid()
      modifies this, ring
      ensures Valid() && (State(), r.Some?) == LqStep(ring.cap, old(State()), PopOp)
      ensures r == if old(ring.Contents) == [] then None else Some(old(ring.Contents)[0])
    {
      hide Watermark;
      StepKeepsReserve(ring.cap, State(), PopOp);
      r := ring.Pop();
      if r.Some? { yielded := yielded[1..]; }
    }
  }

  /** The local queues of all workers (s->lqs in src/sched.c). */
  class Bank {
    const lqs: seq<Lq>
    const cap: nat

    ghost const repr: set<object>

    /** The queues do not share memory. */
    ghost predicate Shape() {
      && (forall w :: 0 <= w < |lqs| ==> lqs[w].ring.cap == cap && lqs[w].Frame() <= repr)
      && forall v, w :: 0 <= v < w < |lqs| ==> lqs[v] != lqs[w] && lqs[v].ring != lqs[w].ring && lqs[v].ring.buf != lqs[w].ring.buf
    }

    ghost predicate Valid()
      reads repr
    {
      Shape() && forall w :: 0 <= w < |lqs| ==> lqs[w].Valid()
    }

    ghost function Lists(): (r: seq<seq<Task>>)
      requires Valid()
      reads repr
      ensures |r| == |lqs| && forall w :: 0 <= w < |lqs| ==> r[w] == lqs[w].ring.Contents
    {
      seq(|lqs|, w requires 0 <= w < |lqs| reads repr => lqs[w].ring.Contents)
    }

    constructor (n: nat, cap: nat)
      requires GoodCap(cap)
      ensures Valid() && fresh(this) && fresh(repr) && this.cap == cap && Lists() == seq(n, _ => [])
    {
      hide Watermark, LqInv, Stores, GoodCap;
      var qs: seq<Lq> := [];
      ghost var rep: set<object> := {};
      while |qs| < n
        invariant |qs| <= n && fresh(rep)
        invariant forall w :: 0 <= w < |qs| ==> qs[w].Valid() && qs[w].ring.cap == cap && qs[w].Frame() <= rep && qs[w].ring.Contents == []
        invariant forall v, w :: 0 <= v < w < |qs| ==> qs[v] != qs[w] && qs[v].ring != qs[w].ring && qs[v].ring.buf != qs[w].ring.buf
      {
        var q := new Lq(cap);
        assert {q, q.ring, q.ring.buf} !! rep;
        qs, rep := qs + [q], rep + q.Frame();
      }
      this.cap, lqs, repr := cap, qs, rep;
    }

    lemma Bounds(w: nat)
      requires Valid() && w < |lqs|
      ensures |Lists()[w]| <= cap
    {
      hide Watermark, Stores, CountYields;
      assert lqs[w].Valid();
    }

    method Push(w: nat, t: Task) returns (ok: bool)
      requires Valid() && w < |lqs|
      modifies repr
      ensures Valid() && ok == (|old(Lists())[w]| < Watermark(cap))
      ensures Lists() == if ok then old(Lists())[w := old(Lists())[w] + [t]] else old(Lists())
    {
      hide LqInv, Watermark, Stores;
      assert lqs[w].Valid();
      ok := lqs[w].Push(t);
    }

    method PushYield(w: nat, t: Task) returns (ok: bool)
      requires Valid() && w < |lqs|
      modifies repr
      ensures Valid() && ok == (|old(Lists())[w]| < cap)
      ensures Lists() == if ok then old(Lists())[w := old(Lists())[w] + [t]] else old(Lists())
    {
      hide LqInv, Watermark, Stores;
      assert lqs[w].Valid();
      ok := lqs[w].PushYield(t);
    }

    method Pop(w: nat) returns (r: Option<Task>)
      requires Valid() && w < |lqs|
      modifies repr
      ensures Valid() && r == if old(Lists())[w] == [] then None else Some(old(Lists())[w][0])
      ensures Lists() == if r.Some? then old(Lists())[w := old(Lists())[w][1..]] else old(Lists())
    {
      hide LqInv, Watermark, Stores;
      assert lqs[w].Valid();
      r := lqs[w].Pop();
    }
  }
}
