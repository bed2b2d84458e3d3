/**
 kfree's TLB shootdown (arch/x86_64/vmm.c) as a step system over any number of CPUs: one memory
 access, INVLPG or interrupt delivery per step, one initiator at a time.

 A mapping carries a generation, so that a translation cached before a page was unmapped differs
 from one cached after the page was mapped again.  frameOf says which frame a mapping leads to; a
 frame is free, mapped at a page, in other hands, or on its way from kfree to the page allocator.
 */
module TlbShootdown {
  import opened Sequences

  type Page = nat
  type Gen = nat
  type Frame = nat

  datatype Handler =
    | HIdle
    | HEntered              // took the IPI, about to load tlb_shootdown_addr
    | HAddr(addr: Page)     // about to INVLPG unless addr is 0
    | HFlushed              // about to add 1 to tlb_shootdown_ack

  datatype Phase = Unmapping | Flushing | Freeing | Storing | Zeroing | Sending | Waiting | Clearing

  /** kfree on CPU `me`; the pages left to free, the current one first, and the frame that it had. */
  datatype Initiator = Quiet | Active(me: nat, phase: Phase, todo: seq<Page>, phys: Frame)

  datatype Tlb = Tlb(
    n: nat,
    table: map<Page, Gen>,
    nextGen: Gen,
    frameOf: map<Gen, Frame>,
    free: set<Frame>,    // the page allocator's
    other: set<Frame>,   // used for anything but heap pages
    cached: seq<map<Page, Gen>>,
    addr: Page,
    ack: nat,
    ipi: set<nat>,
    handlers: seq<Handler>,
    init: Initiator,
    done: set<nat>)  // history: CPUs whose handler has finished this round

  predicate Shape(s: Tlb) {
    s.n > 0 && |s.cached| == s.n && |s.handlers| == s.n
  }

  ghost function Others(s: Tlb): set<nat> {
    Below(s.n) - (if s.init.Active? then {s.init.me} else {})
  }

  function Invlpg(s: Tlb, c: nat, v: Page): Tlb
    requires Shape(s) && c < s.n
  {
    s.(cached := s.cached[c := s.cached[c] - {v}])
  }

  function Fill(s: Tlb, c: nat, v: Page): Tlb
    requires Shape(s) && c < s.n && v in s.table
  {
    var m: map<Page, Gen> := s.cached[c][v := s.table[v]];
    s.(cached := s.cached[c := m])
  }

  function To(s: Tlb, phase: Phase): Tlb
    requires s.init.Active?
  {
    s.(init := s.init.(phase := phase))
  }

  /** The frame of a mapping; every mapping made by MapStep has one. */
  function FrameOf(s: Tlb, g: Gen): Frame {
    if g in s.frameOf then s.frameOf[g] else 0
  }

  function NextPage(s: Tlb): Tlb
    requires s.init.Active? && s.init.todo != []
  {
    s.(init := s.init.(phase := Unmapping, todo := s.init.todo[1..]))
  }

  ghost predicate CallKfree(s: Tlb, s': Tlb) {
    s.init.Quiet? && s'.init.Active? && s'.init.me < s.n && s'.init.phase.Unmapping? && 0 !in s'.init.todo
    && s' == s.(init := s'.init)
  }

  /** The one step that kfree can take next. */
  ghost function InitiatorNext(s: Tlb): Tlb
    requires Shape(s) && s.init.Active? && s.init.me < s.n && (s.init.todo == [] ==> s.init.phase.Unmapping?)
  {
    var me, todo := s.init.me, s.init.todo;
    match s.init.phase
    case Unmapping =>
      if todo == [] then s.(init := Quiet)
      else if todo[0] !in s.table then NextPage(s)
      else To(s.(table := s.table - {todo[0]}, init := s.init.(phys := FrameOf(s, s.table[todo[0]]))), Flushing)
    case Flushing => To(Invlpg(s, me, todo[0]), Freeing)
    case Freeing =>
      var s1 := s.(free := s.free + {s.init.phys});
      if s.n > 1 then To(s1, Storing) else NextPage(s1)
    case Storing => To(s.(addr := todo[0]), Zeroing)
    case Zeroing => To(s.(ack := 0, done := {}), Sending)
    case Sending => To(s.(ipi := Others(s)), Waiting)
    case Waiting => if s.ack < s.n - 1 then s else To(s, Clearing)
    case Clearing => NextPage(s.(addr := 0))
  }

  ghost predicate InitiatorStep(s: Tlb, s': Tlb)
    requires Shape(s) && s.init.Active? && s.init.me < s.n && (s.init.todo == [] ==> s.init.phase.Unmapping?)
  {
    s' == InitiatorNext(s)
  }

  ghost predicate HandlerStep(s: Tlb, c: nat, s': Tlb)
    requires Shape(s) && c < s.n
  {
    match s.handlers[c]
    case HIdle => c in s.ipi && s' == s.(ipi := s.ipi - {c}, handlers := s.handlers[c := HEntered])
    case HEntered => s' == s.(handlers := s.handlers[c := HAddr(s.addr)])
    case HAddr(a) => s' == (if a != 0 then Invlpg(s, c, a) else s).(handlers := s.handlers[c := HFlushed])
    case HFlushed => s' == s.(handlers := s.handlers[c := HIdle], ack := s.ack + 1, done := s.done + {c})
  }

  /** The hardware walks the table and caches a translation, or drops one. */
  ghost predicate CacheStep(s: Tlb, c: nat, v: Page, s': Tlb)
    requires Shape(s) && c < s.n
  {
    || (v in s.table && s' == Fill(s, c, v))
    || s' == Invlpg(s, c, v)
  }

  /** A demand fault on CPU c maps a page that is not present to a free frame and flushes it locally. */
  ghost predicate MapStep(s: Tlb, c: nat, v: Page, f: Frame, s': Tlb)
    requires Shape(s) && c < s.n
  {
    && v !in s.table && f in s.free
    && s' == Invlpg(s, c, v).(table := s.table[v := s.nextGen], nextGen := s.nextGen + 1,
                              frameOf := s.frameOf[s.nextGen := f], free := s.free - {f})
  }

  /** Anyone else takes a free frame, or gives back one in use. */
  ghost predicate OtherStep(s: Tlb, f: Frame, s': Tlb) {
    || (f in s.free && s' == s.(free := s.free - {f}, other := s.other + {f}))
    || (f in s.other && s' == s.(free := s.free + {f}, other := s.other - {f}))
  }

  ghost predicate Next(s: Tlb, s': Tlb) {
    && Shape(s)
    && (|| CallKfree(s, s')
        || (s.init.Active? && s.init.me < s.n && (s.init.todo == [] ==> s.init.phase.Unmapping?) && InitiatorStep(s, s'))
        || (exists c :: 0 <= c < s.n && HandlerStep(s, c, s'))
        || (exists c, v :: 0 <= c < s.n && CacheStep(s, c, v, s'))
        || (exists c, v, f :: 0 <= c < s.n && MapStep(s, c, v, f, s'))
        || (exists f :: OtherStep(s, f, s')))
  }

  ghost predicate Init(s: Tlb) {
    && Shape(s) && s.init.Quiet? && s.ipi == {} && s.table == map[] && s.frameOf == map[] && s.done == {} && s.free !! s.other
    && (forall c :: 0 <= c < s.n ==> s.cached[c] == map[] && s.handlers[c].HIdle?)
  }

  /** The CPUs that may still hold the page under shootdown. */
  ghost predicate MayBeStale(s: Tlb, c: nat, v: Page)
    requires Shape(s) && c < s.n
  {
    && s.init.Active? && s.init.todo != [] && s.init.todo[0] == v
    && match s.init.phase
       case Unmapping => false
       case Flushing => true
       case Waiting => c != s.init.me && (c in s.ipi || s.handlers[c].HEntered? || s.handlers[c].HAddr?)
       case Clearing => false
       case _ => c != s.init.me
  }

  ghost predicate Current(s: Tlb, c: nat, v: Page)
    requires Shape(s) && c < s.n && v in s.cached[c]
  {
    v in s.table && s.table[v] == s.cached[c][v]
  }

  ghost predicate CpuInv(s: Tlb, c: nat)
    requires Shape(s) && c < s.n
  {
    && (forall v :: v in s.cached[c] ==> s.cached[c][v] < s.nextGen && (Current(s, c, v) || MayBeStale(s, c, v)))
    && (if s.init.Active? && s.init.phase.Waiting? && s.init.todo != [] then
          && (c in s.ipi ==> s.handlers[c].HIdle? && c !in s.done)
          && (!s.handlers[c].HIdle? ==> c !in s.done && c != s.init.me)
          && (c != s.init.me && s.handlers[c].HIdle? && c !in s.ipi ==> c in s.done)
          && (s.handlers[c].HAddr? ==> s.handlers[c].addr == s.init.todo[0])
        else
          s.handlers[c].HIdle?)
  }

  ghost predicate Inv(s: Tlb) {
    && Shape(s)
    && (s.init.Active? ==> s.init.me < s.n && 0 !in s.init.todo && (s.init.todo == [] ==> s.init.phase.Unmapping?)
                           && (s.init.phase in {Storing, Zeroing, Sending, Waiting, Clearing} ==> s.n > 1))
    && (s.init.Active? && s.init.phase in {Zeroing, Sending, Waiting} ==> s.addr == s.init.todo[0])
    && (s.init.Active? && s.init.phase.Sending? ==> s.done == {} && s.ack == 0)
    && (if s.init.Active? && s.init.phase.Waiting? then s.ipi <= Others(s) && s.done <= Others(s) && s.ack == |s.done| else s.ipi == {})
    && (forall v :: v in s.table ==> s.table[v] < s.nextGen)
    && (forall c :: 0 <= c < s.n ==> CpuInv(s, c))
  }

  lemma AllAcked(s: Tlb)
    requires Inv(s) && s.init.Active? && s.init.phase.Waiting?
    ensures |Others(s)| == s.n - 1 && s.ack <= s.n - 1
    ensures s.ack == s.n - 1 ==> s.done == Others(s) && s.ipi == {}
    ensures s.ack == s.n - 1 ==> forall c :: 0 <= c < s.n ==> s.handlers[c].HIdle?
  {
    BelowCard(s.n);
    SubsetCard(s.done, Others(s));
    if s.ack == s.n - 1 {
      forall c | 0 <= c < s.n ensures c !in s.ipi && s.handlers[c].HIdle? {
        assert CpuInv(s, c);
        assert c in Others(s) <==> c != s.init.me;
      }
    }
  }

  lemma LeaveWaiting(s: Tlb)
    requires Inv(s) && s.init.Active? && s.init.phase.Waiting? && s.ack == s.n - 1
    ensures Inv(To(s, Clearing))
  {
    AllAcked(s);
    forall c | 0 <= c < s.n ensures CpuInv(To(s, Clearing), c) { assert CpuInv(s, c); }
  }

  lemma InitiatorCpu(s: Tlb, c: nat)
    requires Inv(s) && s.init.Active? && !s.init.phase.Waiting? && c < s.n
    ensures Shape(InitiatorNext(s)) && InitiatorNext(s).n == s.n && CpuInv(InitiatorNext(s), c)
  {
    assert CpuInv(s, c);
    if s.init.phase.Unmapping? { UnmappingCpu(s, c); } else if s.init.phase.Flushing? { FlushingCpu(s, c); }
  }

  lemma UnmappingCpu(s: Tlb, c: nat)
    requires Inv(s) && s.init.Active? && s.init.phase.Unmapping? && c < s.n
    ensures Shape(InitiatorNext(s)) && InitiatorNext(s).n == s.n && CpuInv(InitiatorNext(s), c)
  {
    assert CpuInv(s, c);
  }

  lemma FlushingCpu(s: Tlb, c: nat)
    requires Inv(s) && s.init.Active? && s.init.phase.Flushing? && c < s.n
    ensures Shape(InitiatorNext(s)) && InitiatorNext(s).n == s.n && CpuInv(InitiatorNext(s), c)
  {
    assert CpuInv(s, c);
  }

  lemma InitiatorKeeps(s: Tlb, s': Tlb)
    requires Inv(s) && s.init.Active? && InitiatorStep(s, s')
    ensures Inv(s')
  {
    if s.init.phase.Waiting? {
      AllAcked(s);
      if s.ack >= s.n - 1 { LeaveWaiting(s); }
    } else {
      hide CpuInv, InitiatorNext;
      forall c | 0 <= c < s.n ensures Shape(s') && s'.n == s.n && CpuInv(s', c) { InitiatorCpu(s, c); }
      InitiatorTables(s);
      InitiatorSignals(s);
    }
  }

  lemma InitiatorTables(s: Tlb)
    requires Inv(s) && s.init.Active? && !s.init.phase.Waiting?
    ensures var s' := InitiatorNext(s); Shape(s') && s'.n == s.n && forall v :: v in s'.table ==> s'.table[v] < s'.nextGen
  {
    hide CpuInv;
  }

  /** The initiator, the address it announces, the acks and the interrupts sent. */
  lemma InitiatorSignals(s: Tlb)
    requires Inv(s) && s.init.Active? && !s.init.phase.Waiting?
    ensures var s' := InitiatorNext(s);
      && (s'.init.Active? ==> s'.init.me < s'.n && 0 !in s'.init.todo && (s'.init.todo == [] ==> s'.init.phase.Unmapping?)
                              && (s'.init.phase in {Storing, Zeroing, Sending, Waiting, Clearing} ==> s'.n > 1))
      && (s'.init.Active? && s'.init.phase in {Zeroing, Sending, Waiting} ==> s'.addr == s'.init.todo[0])
      && (s'.init.Active? && s'.init.phase.Sending? ==> s'.done == {} && s'.ack == 0)
      && (if s'.init.Active? && s'.init.phase.Waiting? then s'.ipi <= Others(s') && s'.done <= Others(s') && s'.ack == |s'.done| else s'.ipi == {})
  {
    hide CpuInv, FrameOf;
  }

  lemma HandlerKeeps(s: Tlb, c: nat, s': Tlb)
    requires Inv(s) && c < s.n && HandlerStep(s, c, s')
    ensures Inv(s')
  {
    assert CpuInv(s, c);
    forall d | 0 <= d < s'.n ensures CpuInv(s', d) { assert CpuInv(s, d); }
  }

  lemma HardwareKeeps(s: Tlb, c: nat, v: Page, f: Frame, s': Tlb)
    requires Inv(s) && c < s.n && (CacheStep(s, c, v, s') || MapStep(s, c, v, f, s'))
    ensures Inv(s')
  {
    forall d | 0 <= d < s'.n ensures CpuInv(s', d) { assert CpuInv(s, d); }
  }

  lemma CallKeeps(s: Tlb, s': Tlb)
    requires Inv(s) && CallKfree(s, s')
    ensures Inv(s')
  {
    forall c | 0 <= c < s'.n ensures CpuInv(s', c) { assert CpuInv(s, c); }
  }

  lemma OtherKeeps(s: Tlb, f: Frame, s': Tlb)
    requires Inv(s) && OtherStep(s, f, s')
    ensures Inv(s')
  {
    forall c | 0 <= c < s'.n ensures CpuInv(s', c) { assert CpuInv(s, c); }
  }

  lemma NextKeeps(s: Tlb, s': Tlb)
    requires Inv(s) && Next(s, s')
    ensures Inv(s')
  {
    hide Inv, InitiatorStep, HandlerStep, CacheStep, MapStep, OtherStep;
    if s.init.Active? && s.init.me < s.n && (s.init.todo == [] ==> s.init.phase.Unmapping?) && InitiatorStep(s, s') {
      InitiatorKeeps(s, s');
    } else if c :| 0 <= c < s.n && HandlerStep(s, c, s') {
      HandlerKeeps(s, c, s');
    } else if c, v :| 0 <= c < s.n && CacheStep(s, c, v, s') {
      HardwareKeeps(s, c, v, 0, s');
    } else if c, v, f :| 0 <= c < s.n && MapStep(s, c, v, f, s') {
      HardwareKeeps(s, c, v, f, s');
    } else if f :| OtherStep(s, f, s') {
      OtherKeeps(s, f, s');
    } else {
      assert CallKfree(s, s');
      CallKeeps(s, s');
    }
  }

  ghost predicate IsRun(run: seq<Tlb>) {
    |run| > 0 && Init(run[0]) && forall k :: 0 <= k < |run| - 1 ==> Next(run[k], run[k + 1])
  }

  lemma {:induction false} RunInv(run: seq<Tlb>, k: nat)
    requires IsRun(run) && k < |run|
    ensures Inv(run[k])
  {
    if k == 0 {
      forall c | 0 <= c < run[0].n ensures CpuInv(run[0], c) { }
    } else {
      RunInv(run, k - 1);
      NextKeeps(run[k - 1], run[k]);
    }
  }

  /** Once kfree has returned, every cached translation on every CPU is the one in the page table. */
  lemma NoStaleAfterKfree(run: seq<Tlb>, k: nat, c: nat, v: Page)
    requires IsRun(run) && k < |run| && run[k].init.Quiet?
    requires c < run[k].n && c < |run[k].cached| && v in run[k].cached[c]
    ensures v in run[k].table && run[k].table[v] == run[k].cached[c][v]
  {
    RunInv(run, k);
    assert CpuInv(run[k], c);
  }

  /** During kfree, a stale translation is for the page in hand, on a CPU that has not flushed it yet. */
  lemma StaleOnlyUnderShootdown(run: seq<Tlb>, k: nat, c: nat, v: Page)
    requires IsRun(run) && k < |run| && c < run[k].n
    requires Shape(run[k]) && v in run[k].cached[c] && !Current(run[k], c, v)
    ensures MayBeStale(run[k], c, v) && (run[k].init.phase.Waiting? ==> c !in run[k].done)
  {
    RunInv(run, k);
    assert CpuInv(run[k], c);
  }

  /** While the initiator waits, the ack count is the number of CPUs that finished, and one that has not can step. */
  lemma AckCountsFinishedCpus(run: seq<Tlb>, k: nat)
    requires IsRun(run) && k < |run| && run[k].init.Active? && run[k].init.phase.Waiting?
    ensures run[k].ack == |run[k].done| <= run[k].n - 1
    ensures run[k].ack == run[k].n - 1 ==> forall c :: c in Others(run[k]) ==> c in run[k].done
    ensures run[k].ack < run[k].n - 1 ==> exists c, s' :: 0 <= c < run[k].n && Shape(run[k]) && HandlerStep(run[k], c, s')
  {
    RunInv(run, k);
    var s := run[k];
    AllAcked(s);
    if s.ack < s.n - 1 { var c, s' := HandlerGoesOn(s); }
  }

  // ---- kfree returns ------------------------------------------------------------------------

  /** The initiator leaves its wait exactly when every other CPU has finished this round. */
  lemma WaitEndsIff(run: seq<Tlb>, k: nat)
    requires IsRun(run) && k < |run| && run[k].init.Active? && run[k].init.phase.Waiting?
    ensures Shape(run[k]) && run[k].init.me < run[k].n && run[k].init.todo != []
    ensures var s := run[k]; var s' := InitiatorNext(s);
      && (Others(s) <= s.done ==> s'.init.Active? && s'.init.phase.Clearing?)
      && (!(Others(s) <= s.done) ==> s' == s)
  {
    RunInv(run, k);
    var s := run[k];
    AllAcked(s);
    if Others(s) <= s.done { SubsetCard(Others(s), s.done); }
  }

  /** What CPU c's handler has left to do in this round. */
  function Left(s: Tlb, c: nat): nat
    requires Shape(s) && c < s.n
  {
    match s.handlers[c]
    case HIdle => if c in s.ipi then 4 else 0
    case HEntered => 3
    case HAddr(_) => 2
    case HFlushed => 1
  }

  function LeftBelow(s: Tlb, c: nat): (r: nat)
    requires Shape(s) && c <= s.n
    ensures r <= 4 * c
  {
    if c == 0 then 0 else LeftBelow(s, c - 1) + Left(s, c - 1)
  }

  /** Enough steps for k pages. */
  function Pages(k: nat, n: nat): nat {
    if k == 0 then 0 else Pages(k - 1, n) + 4 * n + 10
  }

  /** How many steps of initiator and handlers kfree still needs at most. */
  function Work(s: Tlb): nat
    requires Shape(s)
  {
    if s.init.Quiet? then 0
    else if s.init.phase.Unmapping? || s.init.todo == [] then Pages(|s.init.todo|, s.n) + 1
    else
      Pages(|s.init.todo| - 1, s.n) +
        match s.init.phase
        case Unmapping => 0
        case Flushing => 4 * s.n + 9
        case Freeing => 4 * s.n + 8
        case Storing => 4 * s.n + 7
        case Zeroing => 4 * s.n + 6
        case Sending => 4 * s.n + 5
        case Waiting => 4 + LeftBelow(s, s.n)
        case Clearing => 3
  }

  lemma {:induction false} SameLeft(s: Tlb, s': Tlb, c: nat)
    requires Shape(s) && Shape(s') && s'.n == s.n && c <= s.n
    requires forall d :: 0 <= d < c ==> Left(s', d) == Left(s, d)
    ensures LeftBelow(s', c) == LeftBelow(s, c)
  {
    hide Left;
    if c > 0 { SameLeft(s, s', c - 1); }
  }

  lemma {:induction false} LessLeft(s: Tlb, s': Tlb, c: nat, d: nat)
    requires Shape(s) && Shape(s') && s'.n == s.n && d < c <= s.n && Left(s', d) < Left(s, d)
    requires forall e :: 0 <= e < c && e != d ==> Left(s', e) == Left(s, e)
    ensures LeftBelow(s', c) < LeftBelow(s, c)
  {
    hide Left;
    if d < c - 1 { LessLeft(s, s', c - 1, d); } else { SameLeft(s, s', d); }
  }

  /** Every step of the initiator counts, except that it may look at the ack count in vain while another CPU is not done. */
  lemma InitiatorCounts(s: Tlb)
    requires Inv(s) && s.init.Active?
    ensures var s' := InitiatorNext(s); Shape(s') && (Work(s') < Work(s) || (s' == s && s.init.phase.Waiting? && s.ack < s.n - 1))
  {
    hide CpuInv, LeftBelow;
    var s' := InitiatorNext(s);
    if s.init.phase.Sending? { assert LeftBelow(s', s.n) <= 4 * s.n by { Bounded(s'); } }
  }

  lemma Bounded(s: Tlb)
    requires Shape(s)
    ensures LeftBelow(s, s.n) <= 4 * s.n
  {
  }

  lemma HandlerCounts(s: Tlb, c: nat, s': Tlb)
    requires Inv(s) && c < s.n && HandlerStep(s, c, s')
    ensures Shape(s') && s.init.Active? && Work(s') < Work(s)
  {
    assert CpuInv(s, c);
    LessLeft(s, s', s.n, c);
  }

  /** Cache fills, demand faults and the use of frames by others leave kfree's remaining work as it is. */
  lemma OthersCountNothing(s: Tlb, s': Tlb)
    requires Inv(s) && Shape(s') && s'.n == s.n && s'.init == s.init && s'.ipi == s.ipi && s'.handlers == s.handlers
    ensures Work(s') == Work(s)
  {
    SameLeft(s, s', s.n);
  }

  /** A step of kfree itself: the initiator's or a handler's. */
  ghost predicate KfreeStep(s: Tlb, s': Tlb) {
    && Shape(s)
    && (|| (s.init.Active? && s.init.me < s.n && (s.init.todo == [] ==> s.init.phase.Unmapping?) && s' == InitiatorNext(s))
        || exists c :: 0 <= c < s.n && HandlerStep(s, c, s'))
  }

  /**
   In every run, the remaining work of a kfree under way never grows: each step of initiator or handler
   lowers it, but for looking at the ack count in vain; whatever else happens leaves it as it is.
   */
  lemma WorkGoesDown(run: seq<Tlb>, k: nat)
    requires IsRun(run) && k + 1 < |run| && run[k].init.Active?
    ensures Shape(run[k]) && Shape(run[k + 1])
    ensures Work(run[k + 1]) <= Work(run[k])
    ensures KfreeStep(run[k], run[k + 1]) ==> Work(run[k + 1]) < Work(run[k]) || run[k + 1] == run[k]
  {
    RunInv(run, k);
    var s, s' := run[k], run[k + 1];
    assert Next(s, s');
    StepCounts(s, s');
  }

  lemma StepCounts(s: Tlb, s': Tlb)
    requires Inv(s) && Next(s, s') && s.init.Active?
    ensures Shape(s') && Work(s') <= Work(s)
    ensures KfreeStep(s, s') ==> Work(s') < Work(s) || s' == s
  {
    hide Inv, InitiatorNext, HandlerStep, CacheStep, MapStep, OtherStep, Work;
    InitiatorFits(s);
    InitiatorCounts(s);
    forall c | 0 <= c < s.n && HandlerStep(s, c, s') ensures Shape(s') && Work(s') < Work(s) { HandlerCounts(s, c, s'); }
    if s' != InitiatorNext(s) && !(exists c :: 0 <= c < s.n && HandlerStep(s, c, s')) {
      OtherwiseSame(s, s');
      OthersCountNothing(s, s');
    }
  }

  lemma InitiatorFits(s: Tlb)
    requires Inv(s)
    ensures Shape(s) && (s.init.Active? ==> s.init.me < s.n && (s.init.todo == [] ==> s.init.phase.Unmapping?))
  {
  }

  lemma OtherwiseSame(s: Tlb, s': Tlb)
    requires Shape(s) && s.init.Active? && s.init.me < s.n && (s.init.todo == [] ==> s.init.phase.Unmapping?) && Next(s, s')
    requires s' != InitiatorNext(s) && !(exists c :: 0 <= c < s.n && HandlerStep(s, c, s'))
    ensures Shape(s') && s'.n == s.n && s'.init == s.init && s'.ipi == s.ipi && s'.handlers == s.handlers
  {
    hide InitiatorNext, HandlerStep;
  }

  /** While a kfree is under way, some step of it lowers the work: nobody waits for an ack that does not come. */
  lemma CanGoOn(s: Tlb) returns (s': Tlb)
    requires Inv(s) && s.init.Active?
    ensures KfreeStep(s, s') && Inv(s') && Work(s') < Work(s)
  {
    hide CpuInv, Work;
    InitiatorFits(s);
    InitiatorCounts(s);
    s' := InitiatorNext(s);
    if s' == s && s.init.phase.Waiting? && s.ack < s.n - 1 {
      var c;
      c, s' := HandlerGoesOn(s);
      HandlerCounts(s, c, s');
      HandlerKeeps(s, c, s');
    } else {
      InitiatorKeeps(s, s');
    }
  }

  lemma HandlerGoesOn(s: Tlb) returns (c: nat, s': Tlb)
    requires Inv(s) && s.init.Active? && s.init.phase.Waiting? && s.ack < s.n - 1
    ensures c < s.n && HandlerStep(s, c, s')
  {
    AllAcked(s);
    if Others(s) <= s.done { SubsetCard(Others(s), s.done); }
    c :| c in Others(s) && c !in s.done;
    assert CpuInv(s, c);
    s' := match s.handlers[c]
      case HIdle => s.(ipi := s.ipi - {c}, handlers := s.handlers[c := HEntered])
      case HEntered => s.(handlers := s.handlers[c := HAddr(s.addr)])
      case HAddr(a) => (if a != 0 then Invlpg(s, c, a) else s).(handlers := s.handlers[c := HFlushed])
      case HFlushed => s.(handlers := s.handlers[c := HIdle], ack := s.ack + 1, done := s.done + {c});
  }

  /** From every state a run can reach with a kfree under way, steps of initiator and handlers alone let it return. */
  lemma {:induction false} KfreeReturns(s: Tlb) returns (rest: seq<Tlb>)
    requires Inv(s)
    ensures |rest| > 0 && rest[0] == s && rest[|rest| - 1].init.Quiet?
    ensures forall k :: 0 <= k < |rest| - 1 ==> KfreeStep(rest[k], rest[k + 1])
    decreases Work(s)
  {
    hide Inv, KfreeStep, Work;
    rest := [s];
    if s.init.Active? {
      var s' := CanGoOn(s);
      var more := KfreeReturns(s');
      rest := [s] + more;
      forall k | 0 <= k < |rest| - 1 ensures KfreeStep(rest[k], rest[k + 1]) {
        if k > 0 { assert rest[k] == more[k - 1] && rest[k + 1] == more[k]; }
      }
    }
  }

  // ---- frames -----------------------------------------------------------------------------

  /** The frame is free, in other hands, or mapped at some page. */
  ghost predicate GivenAway(s: Tlb, f: Frame) {
    f in s.free || f in s.other || exists w :: w in s.table && FrameOf(s, s.table[w]) == f
  }

  /** kfree has unmapped the page in hand and not yet given its frame to the page allocator. */
  predicate Keeping(s: Tlb) {
    s.init.Active? && (s.init.phase.Flushing? || s.init.phase.Freeing?)
  }

  /** kfree has given the frame of the page in hand to the page allocator, and the shootdown is not over. */
  predicate Given(s: Tlb) {
    s.init.Active? && !s.init.phase.Unmapping? && !s.init.phase.Flushing? && !s.init.phase.Freeing?
  }

  ghost predicate MappedInv(s: Tlb) {
    && s.free !! s.other && (forall g :: g in s.frameOf ==> g < s.nextGen)
    && (forall v :: v in s.table ==> s.table[v] in s.frameOf && FrameOf(s, s.table[v]) !in s.free + s.other)
    && (forall v, w :: v in s.table && w in s.table && FrameOf(s, s.table[v]) == FrameOf(s, s.table[w]) ==> v == w)
  }

  ghost predicate HandInv(s: Tlb) {
    && (Keeping(s) ==> !GivenAway(s, s.init.phys))
    && (Given(s) ==> GivenAway(s, s.init.phys))
  }

  /** What a stale translation leads to is the frame that kfree has in hand. */
  ghost predicate CachedInv(s: Tlb, c: nat)
    requires Shape(s) && c < s.n
  {
    forall v :: v in s.cached[c] ==>
      s.cached[c][v] in s.frameOf && (!Current(s, c, v) ==> s.init.Active? && FrameOf(s, s.cached[c][v]) == s.init.phys)
  }

  ghost predicate FrameInv(s: Tlb) {
    Shape(s) && MappedInv(s) && HandInv(s) && forall c :: 0 <= c < s.n ==> CachedInv(s, c)
  }

  lemma MapFrames(s: Tlb, c: nat, v: Page, f: Frame, s': Tlb)
    requires Inv(s) && FrameInv(s) && c < s.n && MapStep(s, c, v, f, s')
    ensures FrameInv(s')
  {
    forall w | w in s.table ensures s'.table[w] == s.table[w] && FrameOf(s', s'.table[w]) == FrameOf(s, s.table[w]) { }
    assert s'.table[v] == s.nextGen && FrameOf(s', s.nextGen) == f;
    forall g | g in s.frameOf ensures FrameOf(s', g) == FrameOf(s, g) { }
    MapHand(s, c, v, f, s');
    forall d | 0 <= d < s'.n ensures CachedInv(s', d) {
      assert CachedInv(s, d) && CpuInv(s, d);
      forall w | w in s'.cached[d]
        ensures s'.cached[d][w] in s'.frameOf && (!Current(s', d, w) ==> s'.init.Active? && FrameOf(s', s'.cached[d][w]) == s'.init.phys)
      {
        assert w in s.cached[d] && s'.cached[d][w] == s.cached[d][w];
      }
    }
  }

  lemma MapHand(s: Tlb, c: nat, v: Page, f: Frame, s': Tlb)
    requires Inv(s) && FrameInv(s) && c < s.n && MapStep(s, c, v, f, s')
    ensures HandInv(s')
  {
    assert FrameOf(s', s'.table[v]) == f;
    forall w | w in s.table ensures s'.table[w] == s.table[w] && FrameOf(s', s'.table[w]) == FrameOf(s, s.table[w]) { }
    if Given(s) {
      if w :| w in s.table && FrameOf(s, s.table[w]) == s.init.phys { assert FrameOf(s', s'.table[w]) == s.init.phys; }
    }
  }

  /** Steps that leave table and frames alone, and cache nothing but what the table says. */
  lemma CacheFrames(s: Tlb, s': Tlb)
    requires Inv(s) && FrameInv(s) && Shape(s') && s'.n == s.n && SameFrames(s, s') && s'.free == s.free && s'.other == s.other
    requires s'.init == s.init || (s.init.Quiet? && s'.init.Active? && s'.init.phase.Unmapping?)
    requires forall d :: 0 <= d < s.n ==> CachesOnly(s, s', d)
    ensures FrameInv(s')
  {
    hide Inv;
    assert forall g :: FrameOf(s', g) == FrameOf(s, g);
    forall d | 0 <= d < s'.n ensures CachedInv(s', d) {
      assert CachesOnly(s, s', d) && CachedInv(s, d);
      forall w | w in s'.cached[d]
        ensures s'.cached[d][w] in s'.frameOf && (!Current(s', d, w) ==> s'.init.Active? && FrameOf(s', s'.cached[d][w]) == s'.init.phys)
      { }
    }
  }

  ghost predicate SameFrames(s: Tlb, s': Tlb) {
    s'.table == s.table && s'.frameOf == s.frameOf && s'.nextGen == s.nextGen
  }

  /** What CPU d has cached, it had cached before, or it is what the table says. */
  ghost predicate CachesOnly(s: Tlb, s': Tlb, d: nat)
    requires Shape(s) && Shape(s') && d < s.n && d < s'.n
  {
    forall w :: w in s'.cached[d] ==>
      (w in s.cached[d] && s'.cached[d][w] == s.cached[d][w]) || (w in s.table && s'.cached[d][w] == s.table[w])
  }

  lemma OtherFrames(s: Tlb, f: Frame, s': Tlb)
    requires Inv(s) && FrameInv(s) && OtherStep(s, f, s')
    ensures FrameInv(s')
  {
    hide Inv;
    assert forall g :: FrameOf(s', g) == FrameOf(s, g);
    forall d | 0 <= d < s'.n ensures CachedInv(s', d) { assert CachedInv(s, d); }
  }

  lemma UnmapFrames(s: Tlb, s': Tlb)
    requires Inv(s) && FrameInv(s) && s.init.Active? && s.init.phase.Unmapping? && InitiatorStep(s, s')
    ensures FrameInv(s')
  {
    assert forall g :: FrameOf(s', g) == FrameOf(s, g);
    forall d | 0 <= d < s'.n ensures CachedInv(s', d) { assert CachedInv(s, d) && CpuInv(s, d); }
  }

  lemma InitiatorFrames(s: Tlb, s': Tlb)
    requires Inv(s) && FrameInv(s) && s.init.Active? && !s.init.phase.Unmapping? && InitiatorStep(s, s')
    ensures FrameInv(s')
  {
    hide Inv, InitiatorStep, HandInv;
    SameNumbers(s, s');
    InitiatorHand(s, s');
    InitiatorCaches(s, s');
    forall d | 0 <= d < s'.n ensures CachedInv(s', d) { assert CachedInv(s, d) && CachesOnly(s, s', d); }
  }

  lemma InitiatorCaches(s: Tlb, s': Tlb)
    requires Inv(s) && s.init.Active? && !s.init.phase.Unmapping? && InitiatorStep(s, s')
    ensures Shape(s') && s'.n == s.n && SameFrames(s, s') && s'.init.Active? && s'.init.phys == s.init.phys
    ensures forall d :: 0 <= d < s.n ==> CachesOnly(s, s', d)
  {
    hide MayBeStale;
  }

  lemma SameNumbers(s: Tlb, s': Tlb)
    ensures s'.frameOf == s.frameOf ==> forall g :: FrameOf(s', g) == FrameOf(s, g)
  {
  }

  lemma InitiatorHand(s: Tlb, s': Tlb)
    requires Inv(s) && FrameInv(s) && s.init.Active? && !s.init.phase.Unmapping? && InitiatorStep(s, s')
    ensures MappedInv(s') && HandInv(s')
  {
    hide MayBeStale, CachedInv, CpuInv;
    SameNumbers(s, s');
  }

  lemma NextFrames(s: Tlb, s': Tlb)
    requires Inv(s) && FrameInv(s) && Next(s, s')
    ensures FrameInv(s')
  {
    hide FrameInv, Inv, InitiatorStep, HandlerStep, CacheStep, MapStep, OtherStep;
    if s.init.Active? && s.init.me < s.n && (s.init.todo == [] ==> s.init.phase.Unmapping?) && InitiatorStep(s, s') {
      if s.init.phase.Unmapping? { UnmapFrames(s, s'); } else { InitiatorFrames(s, s'); }
    } else if c :| 0 <= c < s.n && HandlerStep(s, c, s') {
      HandlerFrames(s, c, s');
    } else if c, v :| 0 <= c < s.n && CacheStep(s, c, v, s') {
      FillFrames(s, c, v, s');
    } else if c, v, f :| 0 <= c < s.n && MapStep(s, c, v, f, s') {
      MapFrames(s, c, v, f, s');
    } else if f :| OtherStep(s, f, s') {
      OtherFrames(s, f, s');
    } else {
      assert CallKfree(s, s');
      CallFrames(s, s');
    }
  }

  lemma CallFrames(s: Tlb, s': Tlb)
    requires Inv(s) && FrameInv(s) && CallKfree(s, s')
    ensures FrameInv(s')
  {
    hide Inv, FrameInv;
    assert Shape(s) by { ShapeOf(s); }
    CacheFrames(s, s');
  }

  lemma HandlerFrames(s: Tlb, c: nat, s': Tlb)
    requires Inv(s) && FrameInv(s) && c < s.n && Shape(s) && HandlerStep(s, c, s')
    ensures FrameInv(s')
  {
    hide Inv, FrameInv;
    CacheFrames(s, s');
  }

  lemma FillFrames(s: Tlb, c: nat, v: Page, s': Tlb)
    requires Inv(s) && FrameInv(s) && c < s.n && Shape(s) && CacheStep(s, c, v, s')
    ensures FrameInv(s')
  {
    hide Inv, FrameInv;
    CacheFrames(s, s');
  }

  lemma ShapeOf(s: Tlb)
    requires Inv(s)
    ensures Shape(s)
  {
  }

  lemma {:induction false} RunFrames(run: seq<Tlb>, k: nat)
    requires IsRun(run) && k < |run|
    ensures FrameInv(run[k])
  {
    hide Inv, Next;
    if k == 0 {
      forall c | 0 <= c < run[0].n ensures CachedInv(run[0], c) { }
    } else {
      RunFrames(run, k - 1);
      RunInv(run, k - 1);
      NextFrames(run[k - 1], run[k]);
    }
  }

  /** The frame that a translation leads to is mapped at that page and nowhere else, and in nobody else's hands. */
  ghost predicate Exclusive(s: Tlb, f: Frame, v: Page) {
    f !in s.free && f !in s.other && forall w :: w in s.table && FrameOf(s, s.table[w]) == f ==> w == v
  }

  /** With no kfree under way, cached translations of different pages lead to different frames, none of them free or in other hands. */
  lemma FramesExclusiveAfterKfree(run: seq<Tlb>, k: nat, c: nat, v: Page)
    requires IsRun(run) && k < |run| && run[k].init.Quiet?
    requires c < run[k].n && c < |run[k].cached| && v in run[k].cached[c]
    ensures Exclusive(run[k], FrameOf(run[k], run[k].cached[c][v]), v)
  {
    RunFrames(run, k);
    NoStaleAfterKfree(run, k, c, v);
  }

  /**
   The window: kfree gives the frame back before the other CPUs have flushed.  In every run a stale
   translation leads to a frame that is free, in other hands or mapped again, if and only if kfree has
   passed that point for the page in hand; and this happens only on CPUs other than the one that runs
   kfree, for the page in hand, before the CPU's handler has flushed it.
   */
  lemma StaleFrameGivenAwayIff(run: seq<Tlb>, k: nat, c: nat, v: Page)
    requires IsRun(run) && k < |run| && c < run[k].n && Shape(run[k]) && v in run[k].cached[c] && !Current(run[k], c, v)
    ensures GivenAway(run[k], FrameOf(run[k], run[k].cached[c][v])) <==> Given(run[k])
    ensures Given(run[k]) ==> MayBeStale(run[k], c, v) && c != run[k].init.me
  {
    hide Inv;
    RunFrames(run, k);
    StaleOnlyUnderShootdown(run, k, c, v);
    assert CachedInv(run[k], c);
  }

  // ---- the window is there ------------------------------------------------------------------

  /** A run of two CPUs: CPU 1 caches page 1, CPU 0 frees it, CPU 1 faults on page 2 before its interrupt comes. */
  ghost function WindowState(k: nat): Tlb {
    var none: map<Page, Gen> := map[];
    var s0 := Tlb(2, map[], 0, map[], {7}, {}, [none, none], 0, 0, {}, [HIdle, HIdle], Quiet, {});
    var s1 := Invlpg(s0, 1, 1).(table := map[1 := 0], nextGen := 1, frameOf := map[0 := 7], free := {});
    var s2 := s1.(cached := [none, map[1 := 0]]);
    var s3 := s2.(init := Active(0, Unmapping, [1], 0));
    var s4 := s3.(table := map[], init := Active(0, Flushing, [1], 7));
    var s5 := s4.(init := Active(0, Freeing, [1], 7));
    var s6 := s5.(free := {7}, init := Active(0, Storing, [1], 7));
    if k == 0 then s0 else if k == 1 then s1 else if k == 2 then s2 else if k == 3 then s3
    else if k == 4 then s4 else if k == 5 then s5 else if k == 6 then s6
    else s6.(table := map[2 := 1], nextGen := 2, frameOf := map[0 := 7, 1 := 7], free := {})
  }

  ghost function WindowRun(): seq<Tlb> {
    seq(8, k requires 0 <= k < 8 => WindowState(k))
  }

  lemma WindowStep(k: nat)
    requires k < 7
    ensures Next(WindowState(k), WindowState(k + 1))
  {
    var none: map<Page, Gen> := map[];
    var s, s' := WindowState(k), WindowState(k + 1);
    if k == 0 {
      assert none - {1} == none;
      assert s'.table == s.table[1 := 0] && s'.frameOf == s.frameOf[0 := 7] && s'.free == s.free - {7};
      assert MapStep(s, 1, 1, 7, s');
    } else if k == 1 {
      assert none[1 := 0] == map[1 := 0];
      assert CacheStep(s, 1, 1, s');
    } else if k == 2 {
      assert CallKfree(s, s');
    } else if k == 3 {
      assert s.table - {1} == map[];
      assert InitiatorStep(s, s');
    } else if k == 4 {
      assert none - {1} == none && [none, map[1 := 0]][0 := none] == [none, map[1 := 0]];
      assert InitiatorStep(s, s');
    } else if k == 5 {
      assert {} + {7} == {7};
      assert InitiatorStep(s, s');
    } else {
      var m: map<Page, Gen> := map[1 := 0];
      assert m - {2} == m && s.cached[1 := m] == s.cached;
      assert s'.table == s.table[2 := 1] && s'.frameOf == s.frameOf[1 := 7] && s'.free == s.free - {7};
      assert MapStep(s, 1, 2, 7, s');
    }
  }

  /** So two pages share a frame: through its stale translation of the freed page, CPU 1 reaches page 2. */
  lemma FreedFrameIsShared()
    ensures IsRun(WindowRun()) && Given(WindowRun()[7])
    ensures var s := WindowRun()[7];
      && 1 in s.cached[1] && 1 !in s.table && 2 in s.table
      && FrameOf(s, s.cached[1][1]) == FrameOf(s, s.table[2])
  {
    var run := WindowRun();
    forall k | 0 <= k < |run| - 1 ensures Next(run[k], run[k + 1]) { WindowStep(k); }
  }
}
