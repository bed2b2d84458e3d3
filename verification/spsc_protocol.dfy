/**
 The SPSC ring of src/ring_spsc.c as a step system: one producer and one consumer, one atomic
 load or store per step.  Positions are unbounded; guards see their low 32 bits only.
 */
module SpscProtocol {
  import opened Words
  import opened MpmcProtocol

  datatype Producer<T> =
    | PIdle
    | PTail(v: T)           // about to load tail
    | PHead(v: T, t: nat)   // about to load head and test for room
    | PCopy(v: T, t: nat)   // about to copy the element in
    | PStore(v: T, t: nat)  // about to store tail

  datatype Consumer<T> =
    | CIdle
    | CHead
    | CTail(h: nat)
    | CCopy(h: nat)
    | CStore(h: nat, v: T)

  /** `pushed` and `delivered` are history: what published pushes stored and completed pops returned. */
  datatype Spsc<T> = Spsc(
    cap: nat, head: nat, tail: nat, buf: seq<T>,
    prod: Producer<T>, cons: Consumer<T>,
    pushed: seq<T>, delivered: seq<T>)

  predicate SpscShape<T>(s: Spsc<T>) {
    GoodCap(s.cap) && |s.buf| == s.cap
  }

  /** `tail - head >= cap` on 32-bit words. */
  predicate NoRoom(t: nat, h: nat, cap: nat) {
    Wrap(Wrap(t) - Wrap(h)) >= cap
  }

  ghost predicate ProducerStep<T(!new)>(s: Spsc<T>, s': Spsc<T>)
    requires SpscShape(s)
  {
    match s.prod
    case PIdle => exists v :: s' == s.(prod := PTail(v))
    case PTail(v) => s' == s.(prod := PHead(v, s.tail))
    case PHead(v, t) => s' == s.(prod := if NoRoom(t, s.head, s.cap) then PIdle else PCopy(v, t))
    case PCopy(v, t) => s' == s.(prod := PStore(v, t), buf := s.buf[Slot(t, s.cap) := v])
    case PStore(v, t) => s' == s.(prod := PIdle, tail := t + 1, pushed := s.pushed + [v])
  }

  ghost predicate ConsumerStep<T>(s: Spsc<T>, s': Spsc<T>)
    requires SpscShape(s)
  {
    match s.cons
    case CIdle => s' == s.(cons := CHead)
    case CHead => s' == s.(cons := CTail(s.head))
    case CTail(h) => s' == s.(cons := if Wrap(h) == Wrap(s.tail) then CIdle else CCopy(h))
    case CCopy(h) => s' == s.(cons := CStore(h, s.buf[Slot(h, s.cap)]))
    case CStore(h, v) => s' == s.(cons := CIdle, head := h + 1, delivered := s.delivered + [v])
  }

  ghost predicate SpscNext<T(!new)>(s: Spsc<T>, s': Spsc<T>) {
    SpscShape(s) && (ProducerStep(s, s') || ConsumerStep(s, s'))
  }

  ghost predicate SpscInit<T>(s: Spsc<T>) {
    && SpscShape(s) && s.head == s.tail == 0 && s.prod.PIdle? && s.cons.CIdle?
    && s.pushed == [] && s.delivered == []
  }

  ghost predicate Copying<T>(s: Spsc<T>) {
    s.prod.PCopy? || s.prod.PStore?
  }

  ghost predicate Reading<T>(s: Spsc<T>) {
    s.cons.CCopy? || s.cons.CStore?
  }

  ghost predicate SpscInv<T>(s: Spsc<T>) {
    && SpscShape(s)
    && s.head <= s.tail <= s.head + s.cap && |s.pushed| == s.tail && s.delivered == s.pushed[..s.head]
    && (forall p :: s.head <= p < s.tail ==> s.buf[Slot(p, s.cap)] == s.pushed[p])
    && (!s.prod.PIdle? && !s.prod.PTail? ==> s.prod.t == s.tail)
    && (Copying(s) ==> s.tail < s.head + s.cap)
    && (s.prod.PStore? ==> s.buf[Slot(s.tail, s.cap)] == s.prod.v)
    && (!s.cons.CIdle? && !s.cons.CHead? ==> s.cons.h == s.head)
    && (Reading(s) ==> s.head < s.tail)
    && (s.cons.CStore? ==> s.cons.v == s.pushed[s.head])
  }

  /** The room and emptiness tests are exact although the counters wrap. */
  lemma TestsAreExact<T>(s: Spsc<T>)
    requires SpscInv(s)
    ensures NoRoom(s.tail, s.head, s.cap) <==> s.tail == s.head + s.cap
    ensures Wrap(s.head) == Wrap(s.tail) <==> s.head == s.tail
  {
    CounterDistance(s.tail, s.head);
    if Wrap(s.head) == Wrap(s.tail) { WrapInjective(s.tail, s.head); }
  }

  lemma ProducerKeeps<T(!new)>(s: Spsc<T>, s': Spsc<T>)
    requires SpscInv(s) && ProducerStep(s, s')
    ensures SpscInv(s')
  {
    hide Slot, GoodCap, NoRoom;
    TestsAreExact(s);
    if s.prod.PCopy? {
      forall p | s.head <= p < s.tail ensures Slot(p, s.cap) != Slot(s.tail, s.cap) {
        if Slot(p, s.cap) == Slot(s.tail, s.cap) { SlotGap(p, s.tail, s.cap); }
      }
    } else if s.prod.PStore? {
      assert s'.pushed[..s.head] == s.pushed[..s.head];
    }
  }

  lemma ConsumerKeeps<T>(s: Spsc<T>, s': Spsc<T>)
    requires SpscInv(s) && ConsumerStep(s, s')
    ensures SpscInv(s')
  {
    hide Slot, GoodCap;
    TestsAreExact(s);
    if s.cons.CStore? { assert s.pushed[..s.head] + [s.pushed[s.head]] == s.pushed[..s.head + 1]; }
  }

  lemma SpscNextInv<T(!new)>(s: Spsc<T>, s': Spsc<T>)
    requires SpscInv(s) && SpscNext(s, s')
    ensures SpscInv(s')
  {
    hide SpscInv;
    if ProducerStep(s, s') { ProducerKeeps(s, s'); } else { ConsumerKeeps(s, s'); }
  }

  ghost predicate SpscRun<T(!new)>(run: seq<Spsc<T>>) {
    |run| > 0 && SpscInit(run[0]) && forall k :: 0 <= k < |run| - 1 ==> SpscNext(run[k], run[k + 1])
  }

  lemma {:induction false} SpscRunInv<T(!new)>(run: seq<Spsc<T>>, k: nat)
    requires SpscRun(run) && k < |run|
    ensures SpscInv(run[k])
  {
    if k > 0 {
      SpscRunInv(run, k - 1);
      SpscNextInv(run[k - 1], run[k]);
    }
  }

  /**
   In every interleaving the consumer receives exactly the pushed elements in order, never more
   than cap behind, and the slot being written is never the slot being read.
   */
  lemma DeliversInOrder<T(!new)>(run: seq<Spsc<T>>, k: nat)
    requires SpscRun(run) && k < |run|
    ensures run[k].delivered <= run[k].pushed && |run[k].pushed| - |run[k].delivered| <= run[k].cap
    ensures SpscShape(run[k])
    ensures Copying(run[k]) && Reading(run[k]) ==> Slot(run[k].prod.t, run[k].cap) != Slot(run[k].cons.h, run[k].cap)
  {
    hide Slot;
    SpscRunInv(run, k);
    var s := run[k];
    if Copying(s) && Reading(s) && Slot(s.prod.t, s.cap) == Slot(s.cons.h, s.cap) { SlotGap(s.cons.h, s.prod.t, s.cap); }
  }

  ghost function Backlog<T>(s: Spsc<T>): seq<T>
    requires |s.delivered| <= |s.pushed|
  {
    s.pushed[|s.delivered|..]
  }

  /**
   Each step is a stutter or one operation of a bounded FIFO on the backlog; a push gives up
   exactly when the backlog is full at its load of head, a pop exactly when it is empty at its
   load of tail.
   */
  lemma SpscRefinesFifo<T(!new)>(s: Spsc<T>, s': Spsc<T>)
    requires SpscInv(s) && SpscNext(s, s')
    ensures SpscInv(s')
    ensures ProducerStep(s, s') && s.prod.PHead? ==> (s'.prod.PIdle? <==> |Backlog(s)| == s.cap)
    ensures ConsumerStep(s, s') && s.cons.CTail? && !ProducerStep(s, s') ==> (s'.cons.CIdle? <==> Backlog(s) == [])
    ensures ProducerStep(s, s') && s.prod.PStore? ==> s'.prod.PIdle? && Backlog(s') == Backlog(s) + [s.prod.v]
    ensures ConsumerStep(s, s') && s.cons.CStore? ==>
      s'.cons.CIdle? && Backlog(s) != [] && s'.delivered == s.delivered + [Backlog(s)[0]] && Backlog(s') == Backlog(s)[1..]
    ensures || Backlog(s') == Backlog(s)
            || (s.prod.PStore? && |Backlog(s)| < s.cap && Backlog(s') == Backlog(s) + [s.prod.v])
            || (s.cons.CStore? && Backlog(s) != [] && s.cons.v == Backlog(s)[0] && Backlog(s') == Backlog(s)[1..])
  {
    hide Slot;
    SpscNextInv(s, s');
    TestsAreExact(s);
  }
}
