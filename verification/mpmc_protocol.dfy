/**
 The bounded MPMC queue of src/ring_mpmc.c as a step system: any number of threads,
 one atomic load, store or compare-and-swap per step, sequentially consistent.

 Positions are unbounded naturals.  The machine only ever sees their low 32 bits:
 every guard below is evaluated on `Wrap` of a position, with the two's complement
 difference and the index mask of the source.
 */
module MpmcProtocol {
  import opened Words

  type Tid = nat

  datatype Cell<T> = Cell(stamp: nat, data: T)

  datatype Pc<T> =
    | Idle
    | PushLoad(v: T)                // about to load tail
    | PushSeq(v: T, pos: nat)       // about to load the cell's seq
    | PushCas(v: T, pos: nat)       // saw diff == 0, about to CAS tail
    | PushCopy(v: T, pos: nat)      // owns pos, about to copy the element in
    | PushPublish(v: T, pos: nat)   // copied, about to store seq
    | PopLoad
    | PopSeq(pos: nat)
    | PopCas(pos: nat)
    | PopCopy(pos: nat)
    | PopRelease(pos: nat, v: T)

  datatype Claim<T> = Claim(tid: Tid, v: T)

  /** `claims`, `takes` and `returned` are history: who won which position, and what each pop returned. */
  datatype State<T> = State(
    cap: nat,
    head: nat,
    tail: nat,
    cells: seq<Cell<T>>,
    pcs: map<Tid, Pc<T>>,
    claims: seq<Claim<T>>,
    takes: seq<Tid>,
    returned: map<nat, T>)

  /** `pos & mask` on the 32-bit counter. */
  function Slot(pos: nat, cap: nat): (i: nat)
    requires GoodCap(cap)
    ensures i < cap
  {
    AndAtMost(Wrap(pos), cap - 1);
    And(Wrap(pos), cap - 1)
  }

  /** What gmk_ring_mpmc_init accepts; a 32-bit power of two is at most 2^31. */
  predicate GoodCap(cap: nat) {
    cap <= TWO31 && IsPowerOfTwo(cap)
  }

  // ---- steps ---------------------------------------------------------------

  predicate Shape<T>(s: State<T>) {
    GoodCap(s.cap) && |s.cells| == s.cap
  }

  function SetPc<T>(s: State<T>, t: Tid, pc: Pc<T>): State<T> {
    s.(pcs := s.pcs[t := pc])
  }

  function SeqAt<T>(s: State<T>, pos: nat): nat
    requires Shape(s)
  {
    s.cells[Slot(pos, s.cap)].stamp
  }

  function WriteSeq<T>(s: State<T>, pos: nat, q: nat): State<T>
    requires Shape(s)
  {
    var i := Slot(pos, s.cap);
    s.(cells := s.cells[i := s.cells[i].(stamp := q)])
  }

  function WriteData<T>(s: State<T>, pos: nat, v: T): State<T>
    requires Shape(s)
  {
    var i := Slot(pos, s.cap);
    s.(cells := s.cells[i := s.cells[i].(data := v)])
  }

  ghost predicate Call<T(!new)>(s: State<T>, t: Tid, s': State<T>)
    requires t in s.pcs
  {
    s.pcs[t].Idle? && (s' == SetPc(s, t, PopLoad) || exists v :: s' == SetPc(s, t, PushLoad(v)))
  }

  function PushClaim<T>(s: State<T>, t: Tid, v: T): State<T> {
    SetPc(s, t, PushCopy(v, s.tail)).(tail := s.tail + 1, claims := s.claims + [Claim(t, v)])
  }

  function PopClaim<T>(s: State<T>, t: Tid): State<T> {
    SetPc(s, t, PopCopy(s.head)).(head := s.head + 1, takes := s.takes + [t])
  }

  ghost predicate PushStep<T>(s: State<T>, t: Tid, s': State<T>)
    requires Shape(s) && t in s.pcs
  {
    match s.pcs[t]
    case PushLoad(v) => s' == SetPc(s, t, PushSeq(v, s.tail))
    case PushSeq(v, pos) =>
      var diff := Diff32(Wrap(SeqAt(s, pos)), Wrap(pos));
      s' == SetPc(s, t, if diff == 0 then PushCas(v, pos) else if diff < 0 then Idle else PushLoad(v))
    case PushCas(v, pos) =>
      // the weak CAS may fail spuriously; a failure reloads tail
      || s' == SetPc(s, t, PushSeq(v, s.tail))
      || (Wrap(s.tail) == Wrap(pos)
          && s' == PushClaim(s, t, v))
    case PushCopy(v, pos) => s' == SetPc(WriteData(s, pos, v), t, PushPublish(v, pos))
    case PushPublish(v, pos) => s' == SetPc(WriteSeq(s, pos, pos + 1), t, Idle)
    case _ => false
  }

  ghost predicate PopStep<T>(s: State<T>, t: Tid, s': State<T>)
    requires Shape(s) && t in s.pcs
  {
    match s.pcs[t]
    case PopLoad => s' == SetPc(s, t, PopSeq(s.head))
    case PopSeq(pos) =>
      var diff := Diff32(Wrap(SeqAt(s, pos)), Wrap(pos + 1));
      s' == SetPc(s, t, if diff == 0 then PopCas(pos) else if diff < 0 then Idle else PopLoad)
    case PopCas(pos) =>
      || s' == SetPc(s, t, PopSeq(s.head))
      || (Wrap(s.head) == Wrap(pos)
          && s' == PopClaim(s, t))
    case PopCopy(pos) => s' == SetPc(s, t, PopRelease(pos, s.cells[Slot(pos, s.cap)].data))
    case PopRelease(pos, v) =>
      s' == SetPc(WriteSeq(s, pos, pos + s.cap), t, Idle).(returned := s.returned[pos := v])
    case _ => false
  }

  ghost predicate Next<T(!new)>(s: State<T>, t: Tid, s': State<T>) {
    Shape(s) && t in s.pcs && (Call(s, t, s') || PushStep(s, t, s') || PopStep(s, t, s'))
  }

  ghost predicate Init<T>(s: State<T>) {
    && Shape(s)
    && s.head == s.tail == 0
    && (forall i :: 0 <= i < s.cap ==> s.cells[i].stamp == i)
    && (forall t :: t in s.pcs ==> s.pcs[t].Idle?)
    && s.claims == [] && s.takes == [] && s.returned == map[]
  }

  /** If thread t is about to CAS, it has not slept across 2^32 claims since it loaded the counter. */
  ghost predicate Timely<T>(s: State<T>, t: Tid) {
    t in s.pcs ==>
      match s.pcs[t]
      case PushCas(_, pos) => s.tail - pos < TWO32
      case PopCas(pos) => s.head - pos < TWO32
      case _ => true
  }

  /** If thread t is about to read a cell's seq, the counter is still within 2^31 - cap of what it loaded. */
  ghost predicate ReadsInTime<T>(s: State<T>, t: Tid) {
    t in s.pcs ==>
      match s.pcs[t]
      case PushSeq(_, pos) => s.tail - pos + s.cap <= TWO31
      case PopSeq(pos) => s.head - pos + s.cap <= TWO31
      case _ => true
  }

  // ---- invariant -----------------------------------------------------------

  ghost predicate Pushing<T>(s: State<T>, t: Tid, p: nat) {
    t in s.pcs && (s.pcs[t].PushCopy? || s.pcs[t].PushPublish?) && s.pcs[t].pos == p
  }

  ghost predicate Popping<T>(s: State<T>, t: Tid, p: nat) {
    t in s.pcs && (s.pcs[t].PopCopy? || s.pcs[t].PopRelease?) && s.pcs[t].pos == p
  }

  /** A cell is free for position q == stamp, or holds position stamp - 1. */
  ghost predicate CellInv<T>(s: State<T>, i: nat)
    requires Shape(s) && i < s.cap && |s.claims| == s.tail && |s.takes| == s.head
  {
    var q := s.cells[i].stamp;
    if Slot(q, s.cap) == i then
      s.head <= q < s.head + s.cap && (q < s.tail ==> Pushing(s, s.claims[q].tid, q))
    else
      && q >= 1 && Slot(q - 1, s.cap) == i && q - 1 < s.tail <= q - 1 + s.cap
      && s.cells[i].data == s.claims[q - 1].v
      && (q - 1 < s.head ==> Popping(s, s.takes[q - 1], q - 1))
  }

  ghost predicate ThreadInv<T>(s: State<T>, t: Tid)
    requires Shape(s) && t in s.pcs && |s.claims| == s.tail && |s.takes| == s.head
  {
    match s.pcs[t]
    case PushSeq(_, pos) => pos <= s.tail
    case PushCas(_, pos) => pos <= s.tail && (pos == s.tail ==> SeqAt(s, pos) == pos)
    case PushCopy(v, pos) => pos < s.tail && s.claims[pos] == Claim(t, v) && SeqAt(s, pos) == pos
    case PushPublish(v, pos) => pos < s.tail && s.claims[pos] == Claim(t, v) && SeqAt(s, pos) == pos
                                && s.cells[Slot(pos, s.cap)].data == v
    case PopSeq(pos) => pos <= s.head
    case PopCas(pos) => pos <= s.head && (pos == s.head ==> SeqAt(s, pos) == pos + 1)
    case PopCopy(pos) => pos < s.head <= s.tail && s.takes[pos] == t && SeqAt(s, pos) == pos + 1
    case PopRelease(pos, v) => pos < s.head <= s.tail && s.takes[pos] == t && SeqAt(s, pos) == pos + 1 && v == s.claims[pos].v
    case _ => true
  }

  ghost predicate Inv<T>(s: State<T>) {
    && Shape(s) && s.cap >= 2
    && |s.claims| == s.tail && |s.takes| == s.head
    && s.head <= s.tail <= s.head + s.cap
    && (forall i :: 0 <= i < s.cap ==> CellInv(s, i))
    && (forall t :: t in s.pcs ==> ThreadInv(s, t))
    && (forall p :: p in s.returned ==> p < s.head && s.returned[p] == s.claims[p].v)
    && (forall p: nat :: p < s.head ==> (p in s.returned <==> SeqAt(s, p) > p + 1))
  }

  // ---- slots ---------------------------------------------------------------

  lemma SlotIsMod(p: nat, cap: nat)
    requires GoodCap(cap)
    ensures Slot(p, cap) == p % cap
  {
    MaskIsMod(Wrap(p), cap);
    var k := PowerOfTwoExponent(cap);
    Pow2Words();
    if k > 31 { Pow2Monotone(32, k); }
    Pow2Add(32 - k, k);
    var m, c := Pow2(32 - k), Pow2(k);
    ModOfMultiple(p, m, c);
  }

  lemma ModOfMultiple(p: nat, m: nat, c: nat)
    requires m > 0 && c > 0
    ensures m * c > 0 && (p % (m * c)) % c == p % c
  {
    var q, r := p / (m * c), p % (m * c);
    assert p == q * (m * c) + r;
    assert r == (r / c) * c + r % c;
    assert q * (m * c) == (q * m) * c;
    assert p == (q * m + r / c) * c + r % c;
    DivModUnique(p, q * m + r / c, c, r % c);
  }

  /** Positions that share a slot are at least cap apart. */
  lemma SlotGap(p: nat, q: nat, cap: nat)
    requires GoodCap(cap) && Slot(p, cap) == Slot(q, cap) && p < q
    ensures p + cap <= q
  {
    SlotIsMod(p, cap); SlotIsMod(q, cap);
    ModGap(p, q, cap);
  }

  lemma SlotNextLap(p: nat, cap: nat)
    requires GoodCap(cap)
    ensures Slot(p + cap, cap) == Slot(p, cap)
  {
    SlotIsMod(p, cap); SlotIsMod(p + cap, cap);
    ModAddSelf(p, cap);
  }

  lemma SlotSmall(i: nat, cap: nat)
    requires GoodCap(cap) && i < cap
    ensures Slot(i, cap) == i
  {
    SlotIsMod(i, cap);
    DivModUnique(i, 0, cap, i);
  }

  // ---- the invariant holds in every run ------------------------------------

  lemma InitInv<T>(s: State<T>)
    requires Init(s) && s.cap >= 2
    ensures Inv(s)
  {
    forall i: nat | i < s.cap ensures CellInv(s, i) { SlotSmall(i, s.cap); }
  }

  /** What the three outcomes of a pusher's seq read mean. */
  lemma PushReadMeans<T>(s: State<T>, t: Tid)
    requires Inv(s) && ReadsInTime(s, t) && t in s.pcs && s.pcs[t].PushSeq?
    ensures var pos := s.pcs[t].pos; Diff32(Wrap(SeqAt(s, pos)), Wrap(pos)) == SeqAt(s, pos) - pos
  {
    hide Slot, GoodCap;
    var pos := s.pcs[t].pos;
    assert ThreadInv(s, t);
    assert CellInv(s, Slot(pos, s.cap));
    SignedDistance(SeqAt(s, pos), pos);
  }

  lemma PopReadMeans<T>(s: State<T>, t: Tid)
    requires Inv(s) && ReadsInTime(s, t) && t in s.pcs && s.pcs[t].PopSeq?
    ensures var pos := s.pcs[t].pos; Diff32(Wrap(SeqAt(s, pos)), Wrap(pos + 1)) == SeqAt(s, pos) - (pos + 1)
  {
    hide Slot, GoodCap;
    var pos := s.pcs[t].pos;
    assert ThreadInv(s, t);
    assert CellInv(s, Slot(pos, s.cap));
    SignedDistance(SeqAt(s, pos), pos + 1);
  }

  /** However long ago the counter was loaded: a difference of 0 at the current tail means that its cell is free. */
  lemma ZeroAtTail<T>(s: State<T>)
    requires Inv(s) && Diff32(Wrap(SeqAt(s, s.tail)), Wrap(s.tail)) == 0
    ensures SeqAt(s, s.tail) == s.tail
  {
    hide Slot;
    assert CellInv(s, Slot(s.tail, s.cap));
    SignedDistance(SeqAt(s, s.tail), s.tail);
  }

  lemma ZeroAtHead<T>(s: State<T>)
    requires Inv(s) && Diff32(Wrap(SeqAt(s, s.head)), Wrap(s.head + 1)) == 0
    ensures SeqAt(s, s.head) == s.head + 1
  {
    hide Slot;
    assert CellInv(s, Slot(s.head, s.cap));
    SignedDistance(SeqAt(s, s.head), s.head + 1);
  }

  ghost predicate InWindow<T>(pc: Pc<T>) {
    pc.PushCopy? || pc.PushPublish? || pc.PopCopy? || pc.PopRelease?
  }

  lemma LocalCell<T>(s: State<T>, t: Tid, pc: Pc<T>, i: nat)
    requires Inv(s) && t in s.pcs && !InWindow(s.pcs[t]) && !InWindow(pc) && i < s.cap
    ensures CellInv(SetPc(s, t, pc), i)
  {
    hide Slot, GoodCap;
    assert CellInv(s, i);
  }

  lemma LocalOther<T>(s: State<T>, t: Tid, pc: Pc<T>, u: Tid)
    requires Inv(s) && t in s.pcs && u in s.pcs && u != t
    ensures ThreadInv(SetPc(s, t, pc), u)
  {
    hide Slot, CellInv;
    assert ThreadInv(s, u);
  }

  /** A step that moves only its own program counter, outside the copy windows. */
  lemma LocalStep<T>(s: State<T>, t: Tid, pc: Pc<T>)
    requires Inv(s) && t in s.pcs && !InWindow(s.pcs[t]) && !InWindow(pc)
    requires ThreadInv(SetPc(s, t, pc), t)
    ensures Inv(SetPc(s, t, pc))
  {
    hide Slot, CellInv, ThreadInv, InWindow;
    var s' := SetPc(s, t, pc);
    forall i: nat | i < s.cap ensures CellInv(s', i) { LocalCell(s, t, pc, i); }
    forall u | u in s'.pcs ensures ThreadInv(s', u) {
      if u != t { LocalOther(s, t, pc, u); }
    }
  }

  lemma PushClaimCell<T>(s: State<T>, t: Tid, v: T, i: nat)
    requires Inv(s) && t in s.pcs && !InWindow(s.pcs[t]) && SeqAt(s, s.tail) == s.tail && i < s.cap
    ensures CellInv(PushClaim(s, t, v), i)
  {
    hide Slot, GoodCap;
    assert CellInv(s, i);
    var q := s.cells[i].stamp;
    if Slot(q, s.cap) != i && q - 1 + s.cap == s.tail { SlotNextLap(q - 1, s.cap); }
  }

  lemma PushClaimKeeps<T>(s: State<T>, t: Tid, v: T)
    requires Inv(s) && t in s.pcs && !InWindow(s.pcs[t]) && SeqAt(s, s.tail) == s.tail
    ensures Inv(PushClaim(s, t, v))
  {
    hide Slot, GoodCap;
    var s' := PushClaim(s, t, v);
    assert CellInv(s, Slot(s.tail, s.cap));
    forall i: nat | i < s.cap ensures CellInv(s', i) { PushClaimCell(s, t, v, i); }
    forall u | u in s'.pcs ensures ThreadInv(s', u) {
      if u != t { assert ThreadInv(s, u); }
    }
  }

  lemma PushCasStep<T>(s: State<T>, t: Tid, s': State<T>)
    requires Inv(s) && Timely(s, t) && t in s.pcs && s.pcs[t].PushCas? && PushStep(s, t, s')
    ensures Inv(s')
  {
    hide Slot, GoodCap;
    var PushCas(v, pos) := s.pcs[t];
    assert ThreadInv(s, t);
    if s' == SetPc(s, t, PushSeq(v, s.tail)) {
      LocalStep(s, t, PushSeq(v, s.tail));
    } else {
      WrapInjective(s.tail, pos);
      PushClaimKeeps(s, t, v);
    }
  }

  lemma CopyCell<T>(s: State<T>, t: Tid, s': State<T>, i: nat)
    requires Inv(s) && t in s.pcs && s.pcs[t].PushCopy? && PushStep(s, t, s') && i < s.cap
    ensures CellInv(s', i)
  {
    hide Slot, GoodCap;
    assert ThreadInv(s, t) && CellInv(s, i);
  }

  lemma CopyOther<T>(s: State<T>, t: Tid, s': State<T>, u: Tid)
    requires Inv(s) && t in s.pcs && s.pcs[t].PushCopy? && PushStep(s, t, s') && u in s.pcs && u != t
    ensures ThreadInv(s', u)
  {
    hide Slot, CellInv;
    assert ThreadInv(s, t) && ThreadInv(s, u);
  }

  lemma CopySelf<T>(s: State<T>, t: Tid, s': State<T>)
    requires Inv(s) && t in s.pcs && s.pcs[t].PushCopy? && PushStep(s, t, s')
    ensures t in s'.pcs && |s'.claims| == s'.tail && |s'.takes| == s'.head && ThreadInv(s', t)
  {
    hide Slot, CellInv;
    assert ThreadInv(s, t);
  }

  lemma PushCopyStep<T>(s: State<T>, t: Tid, s': State<T>)
    requires Inv(s) && t in s.pcs && s.pcs[t].PushCopy? && PushStep(s, t, s')
    ensures Inv(s')
  {
    hide Slot, CellInv, ThreadInv;
    CopySelf(s, t, s');
    forall i: nat | i < s.cap ensures CellInv(s', i) { CopyCell(s, t, s', i); }
    forall u | u in s'.pcs ensures ThreadInv(s', u) {
      if u != t { CopyOther(s, t, s', u); }
    }
  }

  /** A store to one cell's seq leaves a thread alone unless that thread relies on the old value. */
  lemma OtherThread<T>(s: State<T>, t: Tid, s': State<T>, u: Tid)
    requires Inv(s) && t in s.pcs && u in s.pcs && u != t && InWindow(s.pcs[t])
    requires (s.pcs[t].PushPublish? && PushStep(s, t, s')) || (s.pcs[t].PopRelease? && PopStep(s, t, s'))
    ensures ThreadInv(s', u)
  {
    hide Slot, GoodCap;
    assert ThreadInv(s, t) && ThreadInv(s, u);
    var pc := s.pcs[u];
    if !pc.Idle? && !pc.PushLoad? && !pc.PopLoad? {
      if pc.pos < s.pcs[t].pos && Slot(pc.pos, s.cap) == Slot(s.pcs[t].pos, s.cap) { SlotGap(pc.pos, s.pcs[t].pos, s.cap); }
      if s.pcs[t].pos < pc.pos && Slot(pc.pos, s.cap) == Slot(s.pcs[t].pos, s.cap) { SlotGap(s.pcs[t].pos, pc.pos, s.cap); }
    }
  }

  /** A thread in its copy window disturbs no cell but its own. */
  lemma OtherCell<T>(s: State<T>, t: Tid, s': State<T>, i: nat)
    requires Inv(s) && t in s.pcs && InWindow(s.pcs[t]) && i < s.cap && i != Slot(s.pcs[t].pos, s.cap)
    requires Shape(s') && s'.cap == s.cap && s'.head == s.head && s'.tail == s.tail
    requires s'.claims == s.claims && s'.takes == s.takes
    requires s'.cells[i] == s.cells[i] && forall u :: u in s.pcs && u != t ==> u in s'.pcs && s'.pcs[u] == s.pcs[u]
    ensures CellInv(s', i)
  {
    hide Slot, GoodCap;
    assert CellInv(s, i);
  }

  lemma PublishedCell<T>(s: State<T>, t: Tid, s': State<T>)
    requires Inv(s) && t in s.pcs && s.pcs[t].PushPublish? && PushStep(s, t, s')
    ensures CellInv(s', Slot(s.pcs[t].pos, s.cap))
    ensures s.head <= s.pcs[t].pos
  {
    hide Slot, GoodCap;
    var pos := s.pcs[t].pos;
    assert ThreadInv(s, t) && CellInv(s, Slot(pos, s.cap));
    if Slot(pos + 1, s.cap) == Slot(pos, s.cap) { SlotGap(pos, pos + 1, s.cap); }
  }

  lemma PushPublishStep<T>(s: State<T>, t: Tid, s': State<T>)
    requires Inv(s) && t in s.pcs && s.pcs[t].PushPublish? && PushStep(s, t, s')
    ensures Inv(s')
  {
    hide Slot, GoodCap;
    var pos := s.pcs[t].pos;
    var c := Slot(pos, s.cap);
    assert ThreadInv(s, t);
    PublishedCell(s, t, s');
    forall i: nat | i < s.cap ensures CellInv(s', i) {
      if i != c { OtherCell(s, t, s', i); }
    }
    forall u | u in s'.pcs ensures ThreadInv(s', u) {
      if u != t { OtherThread(s, t, s', u); }
    }
    forall p: nat | p < s'.head ensures p in s'.returned <==> SeqAt(s', p) > p + 1 {
      if Slot(p, s.cap) == c { SlotGap(p, pos, s.cap); }
    }
  }

  lemma PopClaimCell<T>(s: State<T>, t: Tid, i: nat)
    requires Inv(s) && t in s.pcs && !InWindow(s.pcs[t]) && SeqAt(s, s.head) == s.head + 1 && i < s.cap
    ensures s.head < s.tail && CellInv(PopClaim(s, t), i)
  {
    hide Slot, GoodCap;
    var c := Slot(s.head, s.cap);
    assert CellInv(s, c) && CellInv(s, i);
    if Slot(s.head + 1, s.cap) == c { SlotGap(s.head, s.head + 1, s.cap); }
  }

  lemma PopClaimKeeps<T>(s: State<T>, t: Tid)
    requires Inv(s) && t in s.pcs && !InWindow(s.pcs[t]) && SeqAt(s, s.head) == s.head + 1
    ensures Inv(PopClaim(s, t))
  {
    hide Slot, GoodCap;
    var s' := PopClaim(s, t);
    forall i: nat | i < s.cap ensures CellInv(s', i) { PopClaimCell(s, t, i); }
    PopClaimCell(s, t, Slot(s.head, s.cap));
    forall u | u in s'.pcs ensures ThreadInv(s', u) {
      if u != t { assert ThreadInv(s, u); }
    }
  }

  lemma PopCasStep<T>(s: State<T>, t: Tid, s': State<T>)
    requires Inv(s) && Timely(s, t) && t in s.pcs && s.pcs[t].PopCas? && PopStep(s, t, s')
    ensures Inv(s')
  {
    hide Slot, GoodCap;
    var pos := s.pcs[t].pos;
    assert ThreadInv(s, t);
    if s' == SetPc(s, t, PopSeq(s.head)) {
      LocalStep(s, t, PopSeq(s.head));
    } else {
      WrapInjective(s.head, pos);
      PopClaimKeeps(s, t);
    }
  }

  lemma PopCopyStep<T>(s: State<T>, t: Tid, s': State<T>)
    requires Inv(s) && t in s.pcs && s.pcs[t].PopCopy? && PopStep(s, t, s')
    ensures Inv(s')
  {
    hide Slot, GoodCap;
    var pos := s.pcs[t].pos;
    var c := Slot(pos, s.cap);
    assert ThreadInv(s, t) && CellInv(s, c);
    if Slot(pos + 1, s.cap) == c { SlotGap(pos, pos + 1, s.cap); }
    forall i: nat | i < s.cap ensures CellInv(s', i) {
      if i != c { OtherCell(s, t, s', i); }
    }
    forall u | u in s'.pcs ensures ThreadInv(s', u) {
      if u != t { assert ThreadInv(s, u); }
    }
  }

  lemma ReleasedCell<T>(s: State<T>, t: Tid, s': State<T>)
    requires Inv(s) && t in s.pcs && s.pcs[t].PopRelease? && PopStep(s, t, s')
    ensures CellInv(s', Slot(s.pcs[t].pos, s.cap))
    ensures s.tail <= s.pcs[t].pos + s.cap
  {
    hide Slot, GoodCap;
    var pos := s.pcs[t].pos;
    assert ThreadInv(s, t) && CellInv(s, Slot(pos, s.cap));
    if Slot(pos + 1, s.cap) == Slot(pos, s.cap) { SlotGap(pos, pos + 1, s.cap); }
    SlotNextLap(pos, s.cap);
  }

  lemma PopReleaseStep<T>(s: State<T>, t: Tid, s': State<T>)
    requires Inv(s) && t in s.pcs && s.pcs[t].PopRelease? && PopStep(s, t, s')
    ensures Inv(s') && s.pcs[t].pos !in s.returned
  {
    hide Slot, GoodCap;
    var pos := s.pcs[t].pos;
    var c := Slot(pos, s.cap);
    assert ThreadInv(s, t);
    ReleasedCell(s, t, s');
    forall i: nat | i < s.cap ensures CellInv(s', i) {
      if i != c { OtherCell(s, t, s', i); }
    }
    forall u | u in s'.pcs ensures ThreadInv(s', u) {
      if u != t { OtherThread(s, t, s', u); }
    }
    forall p: nat | p < s'.head ensures p in s'.returned <==> SeqAt(s', p) > p + 1 {
      if Slot(p, s.cap) == c && p < pos { SlotGap(p, pos, s.cap); }
      if Slot(p, s.cap) == c && pos < p { SlotGap(pos, p, s.cap); }
    }
  }

  /** Every step of every thread keeps the invariant. */
  lemma NextInv<T(!new)>(s: State<T>, t: Tid, s': State<T>)
    requires Inv(s) && Timely(s, t) && Next(s, t, s')
    ensures Inv(s')
  {
    hide Slot, GoodCap;
    assert ThreadInv(s, t);
    match s.pcs[t]
    case Idle => LocalStep(s, t, s'.pcs[t]);
    case PushLoad(v) => LocalStep(s, t, s'.pcs[t]);
    case PushSeq(v, pos) =>
      if pos == s.tail && s'.pcs[t].PushCas? { ZeroAtTail(s); }
      LocalStep(s, t, s'.pcs[t]);
    case PushCas(v, pos) => PushCasStep(s, t, s');
    case PushCopy(v, pos) => PushCopyStep(s, t, s');
    case PushPublish(v, pos) => PushPublishStep(s, t, s');
    case PopLoad => LocalStep(s, t, s'.pcs[t]);
    case PopSeq(pos) =>
      if pos == s.head && s'.pcs[t].PopCas? { ZeroAtHead(s); }
      LocalStep(s, t, s'.pcs[t]);
    case PopCas(pos) => PopCasStep(s, t, s');
    case PopCopy(pos) => PopCopyStep(s, t, s');
    case PopRelease(pos, v) => PopReleaseStep(s, t, s');
  }

  // ---- runs ----------------------------------------------------------------

  /** Any interleaving from initialisation on. */
  ghost predicate AnyRun<T(!new)>(run: seq<State<T>>, who: seq<Tid>) {
    && |run| == |who| + 1 && Init(run[0])
    && forall k :: 0 <= k < |who| ==> Next(run[k], who[k], run[k + 1])
  }

  /** An interleaving in which no CAS happens 2^32 claims after its counter was loaded. */
  ghost predicate IsRun<T(!new)>(run: seq<State<T>>, who: seq<Tid>) {
    AnyRun(run, who) && forall k :: 0 <= k < |who| ==> Timely(run[k], who[k])
  }

  lemma {:induction false} RunInv<T(!new)>(run: seq<State<T>>, who: seq<Tid>, k: nat)
    requires IsRun(run, who) && run[0].cap >= 2 && k < |run|
    ensures Inv(run[k])
  {
    if k == 0 {
      InitInv(run[0]);
    } else {
      RunInv(run, who, k - 1);
      NextInv(run[k - 1], who[k - 1], run[k]);
    }
  }

  lemma CountersGrow<T(!new)>(s: State<T>, t: Tid, s': State<T>)
    requires Next(s, t, s')
    ensures s.tail <= s'.tail && s'.cap == s.cap
  {
    hide Slot, GoodCap;
  }

  lemma {:induction false} TailGrows<T(!new)>(run: seq<State<T>>, who: seq<Tid>, j: nat, k: nat)
    requires AnyRun(run, who) && j <= k < |run|
    ensures run[j].tail <= run[k].tail && run[j].cap == run[k].cap
  {
    if j < k {
      TailGrows(run, who, j, k - 1);
      CountersGrow(run[k - 1], who[k - 1], run[k]);
    }
  }

  /**
   With fewer than 2^32 pushes claimed in all, every interleaving is timely, so everything proved
   of timely runs holds without any assumption on timing.
   */
  lemma {:induction false} ShortRunsAreSafe<T(!new)>(run: seq<State<T>>, who: seq<Tid>, k: nat)
    requires AnyRun(run, who) && run[0].cap >= 2 && k < |run| && run[k].tail < TWO32
    ensures Inv(run[k]) && IsRun(run[..k + 1], who[..k])
  {
    hide Inv, Init, Next;
    if k == 0 {
      InitInv(run[0]);
    } else {
      TailGrows(run, who, k - 1, k);
      ShortRunsAreSafe(run, who, k - 1);
      ShortIsTimely(run[k - 1], who[k - 1]);
      NextInv(run[k - 1], who[k - 1], run[k]);
      ExtendRun(run[..k], who[..k - 1], who[k - 1], run[k]);
      assert run[..k] + [run[k]] == run[..k + 1] && who[..k - 1] + [who[k - 1]] == who[..k];
    }
  }

  lemma ShortIsTimely<T>(s: State<T>, t: Tid)
    requires Inv(s) && s.tail < TWO32
    ensures Timely(s, t)
  {
  }

  lemma ExtendRun<T(!new)>(run: seq<State<T>>, who: seq<Tid>, t: Tid, s': State<T>)
    requires IsRun(run, who) && Timely(run[|who|], t) && Next(run[|who|], t, s')
    ensures IsRun(run + [s'], who + [t])
  {
    hide Init, Next, Timely;
    var run', who' := run + [s'], who + [t];
    forall k | 0 <= k < |who'| ensures Timely(run'[k], who'[k]) && Next(run'[k], who'[k], run'[k + 1]) {
      if k < |who| { assert run'[k] == run[k] && who'[k] == who[k] && run'[k + 1] == run[k + 1]; }
    }
  }

  /** Two threads are never in the copy window of the same cell. */
  lemma ExclusiveCopyWindows<T(!new)>(run: seq<State<T>>, who: seq<Tid>, k: nat, t: Tid, u: Tid)
    requires IsRun(run, who) && run[0].cap >= 2 && k < |run|
    requires t != u && t in run[k].pcs && u in run[k].pcs && InWindow(run[k].pcs[t]) && InWindow(run[k].pcs[u])
    ensures GoodCap(run[k].cap)
    ensures Slot(run[k].pcs[t].pos, run[k].cap) != Slot(run[k].pcs[u].pos, run[k].cap)
  {
    hide Slot, GoodCap;
    RunInv(run, who, k);
    var s := run[k];
    assert ThreadInv(s, t) && ThreadInv(s, u);
    var p, q := s.pcs[t].pos, s.pcs[u].pos;
    if Slot(p, s.cap) == Slot(q, s.cap) {
      if p < q { SlotGap(p, q, s.cap); } else if q < p { SlotGap(q, p, s.cap); }
    }
  }

  ghost predicate Published<T>(s: State<T>, p: nat)
    requires Shape(s)
  {
    SeqAt(s, p) >= p + 1
  }

  ghost predicate Released<T>(s: State<T>, p: nat)
    requires Shape(s)
  {
    SeqAt(s, p) >= p + s.cap
  }

  /** A claimed position is being written by its claimant and nobody else, until it is published. */
  lemma WrittenByOne<T(!new)>(run: seq<State<T>>, who: seq<Tid>, k: nat, p: nat)
    requires IsRun(run, who) && run[0].cap >= 2 && k < |run| && p < run[k].tail
    ensures p < |run[k].claims| && Shape(run[k])
    ensures !Published(run[k], p) <==> Pushing(run[k], run[k].claims[p].tid, p)
    ensures forall t :: Pushing(run[k], t, p) ==> t == run[k].claims[p].tid
  {
    hide Slot, GoodCap;
    RunInv(run, who, k);
    var s := run[k];
    var c := Slot(p, s.cap);
    assert CellInv(s, c);
    var q := s.cells[c].stamp;
    if Slot(q, s.cap) == c && q < p { SlotGap(q, p, s.cap); }
    if Slot(q, s.cap) != c && q - 1 < p { SlotGap(q - 1, p, s.cap); }
    forall t | Pushing(s, t, p) ensures t == s.claims[p].tid { assert ThreadInv(s, t); }
    if Pushing(s, s.claims[p].tid, p) { assert ThreadInv(s, s.claims[p].tid); }
  }

  /** A taken position is published; exactly one pop is reading it or has returned its pushed value. */
  lemma ReadByOne<T(!new)>(run: seq<State<T>>, who: seq<Tid>, k: nat, p: nat)
    requires IsRun(run, who) && run[0].cap >= 2 && k < |run| && p < run[k].head
    ensures p < |run[k].takes| && p < |run[k].claims| && Shape(run[k]) && Published(run[k], p)
    ensures p in run[k].returned <==> !Popping(run[k], run[k].takes[p], p)
    ensures forall t :: Popping(run[k], t, p) ==> t == run[k].takes[p]
    ensures p in run[k].returned ==> run[k].returned[p] == run[k].claims[p].v
  {
    hide Slot, GoodCap;
    RunInv(run, who, k);
    var s := run[k];
    var c := Slot(p, s.cap);
    assert CellInv(s, c);
    var q := s.cells[c].stamp;
    if Slot(q, s.cap) == c && q <= p { assert false; }
    if Slot(q, s.cap) != c && q - 1 < p { SlotGap(q - 1, p, s.cap); }
    if Slot(q, s.cap) == c { SlotGap(p, q, s.cap); }
    if Slot(q, s.cap) != c && p < q - 1 { SlotGap(p, q - 1, s.cap); }
    forall t | Popping(s, t, p) ensures t == s.takes[p] { assert ThreadInv(s, t); }
    if Popping(s, s.takes[p], p) { assert ThreadInv(s, s.takes[p]); }
  }

  /** What is claimed and not yet taken, in claim order. */
  ghost function Queue<T>(s: State<T>): seq<T>
    requires s.head <= s.tail == |s.claims|
  {
    seq(s.tail - s.head, i requires 0 <= i < s.tail - s.head => s.claims[s.head + i].v)
  }

  /** Only the two successful CASes move a counter. */
  lemma StepEffect<T(!new)>(s: State<T>, t: Tid, s': State<T>)
    requires Inv(s) && Timely(s, t) && Next(s, t, s')
    ensures s'.cap == s.cap
    ensures || (s'.head == s.head && s'.tail == s.tail && s'.claims == s.claims && s'.takes == s.takes)
            || (s.pcs[t].PushCas? && s.tail < s.head + s.cap && s' == PushClaim(s, t, s.pcs[t].v))
            || (s.pcs[t].PopCas? && s.head < s.tail && s' == PopClaim(s, t))
  {
    hide Slot, GoodCap;
    assert ThreadInv(s, t);
    if s.pcs[t].PushCas? && s'.tail != s.tail {
      WrapInjective(s.tail, s.pcs[t].pos);
      assert CellInv(s, Slot(s.tail, s.cap));
    } else if s.pcs[t].PopCas? && s'.head != s.head {
      WrapInjective(s.head, s.pcs[t].pos);
      PopClaimCell(s, t, Slot(s.head, s.cap));
    }
  }

  /**
   Every step is a stutter, an enqueue at a successful push CAS, or a dequeue at a successful
   pop CAS of a bounded FIFO.  The dequeued element is what that pop later returns (ReadByOne),
   because claims are never rewritten.
   */
  lemma StepRefinesFifo<T(!new)>(s: State<T>, t: Tid, s': State<T>)
    requires Inv(s) && Timely(s, t) && Next(s, t, s')
    ensures s'.cap == s.cap && s'.head <= s'.tail == |s'.claims|
    ensures s.claims <= s'.claims && s.takes <= s'.takes && |Queue(s')| <= s'.cap
    ensures || Queue(s') == Queue(s)
            || (s.pcs[t].PushCas? && |Queue(s)| < s.cap && Queue(s') == Queue(s) + [s.pcs[t].v])
            || (s.pcs[t].PopCas? && Queue(s) != [] && Queue(s') == Queue(s)[1..]
                && s'.pcs[t] == PopCopy(s.head) && s'.claims[s.head].v == Queue(s)[0])
  {
    hide Slot, GoodCap;
    StepEffect(s, t, s');
    if s'.tail != s.tail {
      assert Queue(s') == Queue(s) + [s.pcs[t].v];
    } else if s'.head != s.head {
      assert Queue(s') == Queue(s)[1..];
    } else {
      assert Queue(s') == Queue(s);
    }
  }

  /** Without any assumption on timing: a pusher reads the difference exactly while its cell is less than 2^31 ahead. */
  lemma PushReadExactIff<T>(s: State<T>, t: Tid)
    requires Inv(s) && t in s.pcs && s.pcs[t].PushSeq?
    ensures var pos := s.pcs[t].pos;
      Diff32(Wrap(SeqAt(s, pos)), Wrap(pos)) == SeqAt(s, pos) - pos <==> SeqAt(s, pos) < pos + TWO31
    ensures ReadsInTime(s, t) ==> SeqAt(s, s.pcs[t].pos) < s.pcs[t].pos + TWO31
  {
    hide Slot;
    var pos := s.pcs[t].pos;
    assert ThreadInv(s, t);
    assert CellInv(s, Slot(pos, s.cap));
    if SeqAt(s, pos) < pos + TWO31 { SignedDistance(SeqAt(s, pos), pos); }
  }

  lemma PopReadExactIff<T>(s: State<T>, t: Tid)
    requires Inv(s) && t in s.pcs && s.pcs[t].PopSeq?
    ensures var pos := s.pcs[t].pos;
      Diff32(Wrap(SeqAt(s, pos)), Wrap(pos + 1)) == SeqAt(s, pos) - (pos + 1) <==> SeqAt(s, pos) < pos + 1 + TWO31
    ensures ReadsInTime(s, t) ==> SeqAt(s, s.pcs[t].pos) < s.pcs[t].pos + 1 + TWO31
  {
    hide Slot;
    var pos := s.pcs[t].pos;
    assert ThreadInv(s, t);
    assert CellInv(s, Slot(pos, s.cap));
    if SeqAt(s, pos) < pos + 1 + TWO31 { SignedDistance(SeqAt(s, pos), pos + 1); }
  }

  /** Where the cell of a pusher's position can stand: behind only if the position one lap earlier is unreleased. */
  lemma BehindMeansUnreleased<T>(s: State<T>, t: Tid)
    requires Inv(s) && t in s.pcs && s.pcs[t].PushSeq?
    ensures var pos := s.pcs[t].pos; SeqAt(s, pos) < pos <==> pos >= s.cap && !Released(s, pos - s.cap)
    ensures SeqAt(s, s.pcs[t].pos) >= s.pcs[t].pos - s.cap
  {
    hide Slot, GoodCap;
    var pos := s.pcs[t].pos;
    assert ThreadInv(s, t);
    var c := Slot(pos, s.cap);
    assert CellInv(s, c);
    var q := s.cells[c].stamp;
    if q < pos {
      if Slot(q, s.cap) == c { SlotGap(q, pos, s.cap); } else { SlotGap(q - 1, pos, s.cap); }
    }
    if pos >= s.cap { SlotNextLap(pos - s.cap, s.cap); }
  }

  /** The sign of the difference of two 32-bit words, however far apart the positions are. */
  lemma SignOfDistance(a: nat, b: nat)
    ensures b <= a ==> (Diff32(Wrap(a), Wrap(b)) < 0 <==> (a - b) % TWO32 >= TWO31)
    ensures a < b <= a + TWO31 ==> Diff32(Wrap(a), Wrap(b)) < 0
  {
    WrapDifference(a, b);
    if a < b <= a + TWO31 { SignedDistance(a, b); }
  }

  /**
   With no assumption on timing: push returns -1 exactly when the position one lap earlier is
   unreleased at its seq read, or the cell has run ahead into the upper half of the 32-bit circle.
   So -1 means full exactly as long as the cell is in the lower half.
   */
  lemma PushFullExactIff<T>(s: State<T>, t: Tid)
    requires Inv(s) && t in s.pcs && s.pcs[t].PushSeq?
    ensures var pos := s.pcs[t].pos; var full := pos >= s.cap && !Released(s, pos - s.cap);
      var refused := Diff32(Wrap(SeqAt(s, pos)), Wrap(pos)) < 0; var late := SeqAt(s, pos) >= pos && (SeqAt(s, pos) - pos) % TWO32 >= TWO31;
      && (refused <==> full || late)
      && ((refused <==> full) <==> !late)
      && (ReadsInTime(s, t) ==> !late)
  {
    hide Slot, GoodCap;
    var pos := s.pcs[t].pos;
    BehindMeansUnreleased(s, t);
    SignOfDistance(SeqAt(s, pos), pos);
    PushReadExactIff(s, t);
  }

  /** The same for pop: -1 means unpublished exactly as long as the cell is in the lower half. */
  lemma PopEmptyExactIff<T>(s: State<T>, t: Tid)
    requires Inv(s) && t in s.pcs && s.pcs[t].PopSeq?
    ensures var pos := s.pcs[t].pos; var empty := !Published(s, pos);
      var refused := Diff32(Wrap(SeqAt(s, pos)), Wrap(pos + 1)) < 0; var late := SeqAt(s, pos) > pos && (SeqAt(s, pos) - pos - 1) % TWO32 >= TWO31;
      && (refused <==> empty || late)
      && ((refused <==> empty) <==> !late)
      && (ReadsInTime(s, t) ==> !late)
  {
    hide Slot, GoodCap;
    var pos := s.pcs[t].pos;
    assert ThreadInv(s, t);
    assert CellInv(s, Slot(pos, s.cap));
    SignOfDistance(SeqAt(s, pos), pos + 1);
    PopReadExactIff(s, t);
  }

  /**
   When a push returns: exactly at its seq read if that finds the ring full (PushFullExactIff), and at the
   store of its cell's seq, which publishes its value.  Until then it goes on: a cell it is in time for is
   claimed next, a cell it is too late for means a new load, and so does a CAS that fails.
   */
  lemma PushEnds<T(!new)>(s: State<T>, t: Tid, s': State<T>)
    requires Inv(s) && Next(s, t, s')
    ensures s.pcs[t].PushSeq? ==>
      var pos := s.pcs[t].pos; var q := SeqAt(s, pos);
      var full, late := pos >= s.cap && !Released(s, pos - s.cap), q >= pos && (q - pos) % TWO32 >= TWO31;
      s'.pcs[t] == if full || late then Idle else if (q - pos) % TWO32 == 0 then PushCas(s.pcs[t].v, pos) else PushLoad(s.pcs[t].v)
    ensures s.pcs[t].PushLoad? ==> s'.pcs[t] == PushSeq(s.pcs[t].v, s.tail)
    ensures s.pcs[t].PushCas? ==> s'.pcs[t] == PushSeq(s.pcs[t].v, s.tail) || s'.pcs[t] == PushCopy(s.pcs[t].v, s.tail)
    ensures s.pcs[t].PushCopy? ==> s'.pcs[t] == PushPublish(s.pcs[t].v, s.pcs[t].pos)
    ensures s.pcs[t].PushPublish? ==> s'.pcs[t].Idle? && Published(s', s.pcs[t].pos)
    ensures s.pcs[t].PushPublish? ==> s'.cells[Slot(s.pcs[t].pos, s.cap)] == Cell(s.pcs[t].pos + 1, s.pcs[t].v)
  {
    hide Slot, GoodCap;
    assert ThreadInv(s, t);
    if s.pcs[t].PushSeq? {
      PushFullExactIff(s, t);
      BehindMeansUnreleased(s, t);
      var pos := s.pcs[t].pos;
      assert CellInv(s, Slot(pos, s.cap));
      ZeroDistance(SeqAt(s, pos), pos);
    }
  }

  /** The difference of two words is 0 exactly for positions a multiple of 2^32 apart. */
  lemma ZeroDistance(a: nat, b: nat)
    ensures b <= a ==> (Diff32(Wrap(a), Wrap(b)) == 0 <==> (a - b) % TWO32 == 0)
  {
    WrapDifference(a, b);
  }

  lemma PopEnds<T(!new)>(s: State<T>, t: Tid, s': State<T>)
    requires Inv(s) && Next(s, t, s')
    ensures s.pcs[t].PopSeq? ==>
      var pos := s.pcs[t].pos; var q := SeqAt(s, pos);
      var empty, late := !Published(s, pos), q > pos && (q - pos - 1) % TWO32 >= TWO31;
      s'.pcs[t] == if empty || late then Idle else if (q - pos - 1) % TWO32 == 0 then PopCas(pos) else PopLoad
    ensures s.pcs[t].PopLoad? ==> s'.pcs[t] == PopSeq(s.head)
    ensures s.pcs[t].PopCas? ==> s'.pcs[t] == PopSeq(s.head) || s'.pcs[t] == PopCopy(s.head)
    ensures s.pcs[t].PopCopy? ==> s'.pcs[t] == PopRelease(s.pcs[t].pos, s.claims[s.pcs[t].pos].v)
    ensures s.pcs[t].PopRelease? ==> s'.pcs[t].Idle? && s'.returned == s.returned[s.pcs[t].pos := s.pcs[t].v]
    ensures s.pcs[t].PopRelease? ==> SeqAt(s', s.pcs[t].pos) == s.pcs[t].pos + s.cap
  {
    hide Slot, GoodCap;
    assert ThreadInv(s, t);
    if s.pcs[t].PopSeq? {
      PopEmptyExactIff(s, t);
      var pos := s.pcs[t].pos;
      assert CellInv(s, Slot(pos, s.cap));
      ZeroDistance(SeqAt(s, pos), pos + 1);
    } else if s.pcs[t].PopCopy? {
      assert CellInv(s, Slot(s.pcs[t].pos, s.cap));
      TakenCell(s, t);
    }
  }

  /** The cell of a taken position holds the value that was pushed there. */
  lemma TakenCell<T>(s: State<T>, t: Tid)
    requires Inv(s) && t in s.pcs && s.pcs[t].PopCopy?
    ensures var pos := s.pcs[t].pos; pos < |s.claims| && s.cells[Slot(pos, s.cap)].data == s.claims[pos].v
  {
    hide Slot, GoodCap;
    assert ThreadInv(s, t);
    var pos := s.pcs[t].pos;
    assert CellInv(s, Slot(pos, s.cap));
    if Slot(pos + 1, s.cap) == Slot(pos, s.cap) { SlotGap(pos, pos + 1, s.cap); }
  }

  /** push returns -1 exactly when the position one lap earlier is still unreleased at its seq read. */
  lemma PushFullMeansUnreleased<T>(s: State<T>, t: Tid)
    requires Inv(s) && ReadsInTime(s, t) && t in s.pcs && s.pcs[t].PushSeq?
    ensures var pos := s.pcs[t].pos;
      && (Diff32(Wrap(SeqAt(s, pos)), Wrap(pos)) < 0 <==> pos >= s.cap && !Released(s, pos - s.cap))
      && (Diff32(Wrap(SeqAt(s, pos)), Wrap(pos)) > 0 ==> pos < s.tail)
  {
    hide Slot, GoodCap;
    var pos := s.pcs[t].pos;
    PushReadMeans(s, t);
    BehindMeansUnreleased(s, t);
    assert ThreadInv(s, t);
    var c := Slot(pos, s.cap);
    assert CellInv(s, c);
    var q := s.cells[c].stamp;
    if q > pos && pos == s.tail && Slot(q, s.cap) == c { SlotGap(pos, q, s.cap); }
  }

  /** pop returns -1 exactly when the position it looked at is still unpublished at its seq read. */
  lemma PopEmptyMeansUnpublished<T>(s: State<T>, t: Tid)
    requires Inv(s) && ReadsInTime(s, t) && t in s.pcs && s.pcs[t].PopSeq?
    ensures var pos := s.pcs[t].pos;
      && (Diff32(Wrap(SeqAt(s, pos)), Wrap(pos + 1)) < 0 <==> !Published(s, pos))
      && (Diff32(Wrap(SeqAt(s, pos)), Wrap(pos + 1)) > 0 ==> pos < s.head)
  {
    hide Slot, GoodCap;
    var pos := s.pcs[t].pos;
    PopReadMeans(s, t);
    assert ThreadInv(s, t);
    var c := Slot(pos, s.cap);
    assert CellInv(s, c);
    var q := s.cells[c].stamp;
    if q > pos + 1 && pos == s.head {
      if Slot(q, s.cap) == c { SlotGap(pos, q, s.cap); } else { SlotGap(pos, q - 1, s.cap); }
    }
  }

  /**
   A successful CAS keeps the invariant exactly when it claims a cell that is free for the claimed
   position, and exactly when it claims the position whose seq the thread has read.
   */
  lemma PushCasSafeIff<T>(s: State<T>, t: Tid)
    requires Inv(s) && t in s.pcs && s.pcs[t].PushCas? && Wrap(s.tail) == Wrap(s.pcs[t].pos)
    ensures PushStep(s, t, PushClaim(s, t, s.pcs[t].v))
    ensures Inv(PushClaim(s, t, s.pcs[t].v)) <==> SeqAt(s, s.tail) == s.tail
    ensures Timely(s, t) ==> s.pcs[t].pos == s.tail && SeqAt(s, s.tail) == s.tail
  {
    hide Slot, GoodCap;
    var s' := PushClaim(s, t, s.pcs[t].v);
    assert ThreadInv(s, t);
    if Timely(s, t) { WrapInjective(s.tail, s.pcs[t].pos); }
    if SeqAt(s, s.tail) == s.tail { PushClaimKeeps(s, t, s.pcs[t].v); }
    if Inv(s') { assert ThreadInv(s', t); }
  }

  lemma PopCasSafeIff<T>(s: State<T>, t: Tid)
    requires Inv(s) && t in s.pcs && s.pcs[t].PopCas? && Wrap(s.head) == Wrap(s.pcs[t].pos)
    ensures PopStep(s, t, PopClaim(s, t))
    ensures Inv(PopClaim(s, t)) <==> SeqAt(s, s.head) == s.head + 1
    ensures Timely(s, t) ==> s.pcs[t].pos == s.head && SeqAt(s, s.head) == s.head + 1
  {
    hide Slot, GoodCap;
    var s' := PopClaim(s, t);
    assert ThreadInv(s, t);
    if Timely(s, t) { WrapInjective(s.head, s.pcs[t].pos); }
    if SeqAt(s, s.head) == s.head + 1 { PopClaimKeeps(s, t); }
    if Inv(s') { assert ThreadInv(s', t); }
  }

  // ---- the timing condition is needed --------------------------------------------------

  /** A two-slot ring: thread 0 sleeps at z, thread 1 is at pc; a and b are the seqs at p and p + 1. */
  ghost predicate Scene(s: State<int>, z: Pc<int>, head: nat, tail: nat, pc: Pc<int>, p: nat, a: nat, b: nat) {
    && s.cap == 2 && Shape(s) && s.head == head && s.tail == tail
    && s.pcs == map[0 := z, 1 := pc]
    && SeqAt(s, p) == a && SeqAt(s, p + 1) == b
  }

  /** At rest after p pushes and pops by thread 1. */
  ghost predicate Resting(s: State<int>, z: Pc<int>, p: nat) {
    Scene(s, z, p, p, Idle, p, p, p + 1)
  }

  /** Where thread 0 falls asleep, having loaded position 0. */
  predicate Asleep(z: Pc<int>) {
    z == PushSeq(8, 0) || z == PushCas(8, 0) || z == PopSeq(0)
  }

  /** One more step of a timely run. */
  lemma Go(run: seq<State<int>>, who: seq<Tid>, t: Tid, s': State<int>) returns (run': seq<State<int>>, who': seq<Tid>)
    requires |run| == |who| + 1 && RunTo(run, who, run[|who|]) && Timely(run[|who|], t) && Next(run[|who|], t, s')
    ensures RunTo(run', who', s')
  {
    hide Timely, Next;
    run', who' := run + [s'], who + [t];
    ExtendRun(run, who, t, s');
  }

  /** A timely run that ends in s. */
  ghost predicate RunTo(run: seq<State<int>>, who: seq<Tid>, s: State<int>)
    ensures RunTo(run, who, s) ==> |run| == |who| + 1 && run[|who|] == s
  {
    IsRun(run, who) && run[|who|] == s
  }

  lemma ParitySlots(p: nat)
    ensures GoodCap(2)
    ensures Slot(p + 2, 2) == Slot(p, 2) && Slot(p + 1, 2) != Slot(p, 2)
  {
    assert And(2, 1) == 0;
    SlotNextLap(p, 2);
    if Slot(p + 1, 2) == Slot(p, 2) { SlotGap(p, p + 1, 2); }
  }

  /** Thread 1 claims the free tail position p. */
  lemma SoloClaim(run: seq<State<int>>, who: seq<Tid>, z: Pc<int>, h: nat, p: nat, b: nat)
    returns (run': seq<State<int>>, who': seq<Tid>, s': State<int>)
    requires |run| == |who| + 1 && RunTo(run, who, run[|who|]) && Scene(run[|who|], z, h, p, Idle, p, p, b)
    ensures RunTo(run', who', s') && Scene(s', z, h, p + 1, PushCopy(7, p), p, p, b)
  {
    hide Slot, RunTo, GoodCap;
    var s0 := run[|who|];
    var s1 := SetPc(s0, 1, PushLoad(7));
    run', who' := Go(run, who, 1, s1);
    var s2 := SetPc(s1, 1, PushSeq(7, p));
    run', who' := Go(run', who', 1, s2);
    var s3 := SetPc(s2, 1, PushCas(7, p));
    run', who' := Go(run', who', 1, s3);
    s' := PushClaim(s3, 1, 7);
    run', who' := Go(run', who', 1, s');
  }

  /** Thread 1 copies and publishes what it claimed. */
  lemma SoloPublish(run: seq<State<int>>, who: seq<Tid>, z: Pc<int>, h: nat, p: nat, b: nat)
    returns (run': seq<State<int>>, who': seq<Tid>, s': State<int>)
    requires |run| == |who| + 1 && RunTo(run, who, run[|who|]) && Scene(run[|who|], z, h, p + 1, PushCopy(7, p), p, p, b)
    ensures RunTo(run', who', s') && Scene(s', z, h, p + 1, Idle, p, p + 1, b)
  {
    hide Slot, RunTo, GoodCap;
    ParitySlots(p);
    var s0 := run[|who|];
    var s1 := SetPc(WriteData(s0, p, 7), 1, PushPublish(7, p));
    run', who' := Go(run, who, 1, s1);
    s' := SetPc(WriteSeq(s1, p, p + 1), 1, Idle);
    run', who' := Go(run', who', 1, s');
  }

  /** Thread 1 claims the published head position p. */
  lemma SoloTake(run: seq<State<int>>, who: seq<Tid>, z: Pc<int>, p: nat, b: nat)
    returns (run': seq<State<int>>, who': seq<Tid>, s': State<int>)
    requires |run| == |who| + 1 && RunTo(run, who, run[|who|]) && Scene(run[|who|], z, p, p + 1, Idle, p, p + 1, b)
    ensures RunTo(run', who', s') && Scene(s', z, p + 1, p + 1, PopCopy(p), p, p + 1, b)
  {
    hide Slot, RunTo, GoodCap;
    var s0 := run[|who|];
    var s1 := SetPc(s0, 1, PopLoad);
    run', who' := Go(run, who, 1, s1);
    var s2 := SetPc(s1, 1, PopSeq(p));
    run', who' := Go(run', who', 1, s2);
    var s3 := SetPc(s2, 1, PopCas(p));
    run', who' := Go(run', who', 1, s3);
    s' := PopClaim(s3, 1);
    run', who' := Go(run', who', 1, s');
  }

  /** Thread 1 copies and releases what it took. */
  lemma SoloRelease(run: seq<State<int>>, who: seq<Tid>, z: Pc<int>, p: nat)
    returns (run': seq<State<int>>, who': seq<Tid>, s': State<int>)
    requires |run| == |who| + 1 && RunTo(run, who, run[|who|]) && Scene(run[|who|], z, p + 1, p + 1, PopCopy(p), p, p + 1, p + 1)
    ensures RunTo(run', who', s') && Resting(s', z, p + 1)
  {
    hide Slot, RunTo, GoodCap;
    ParitySlots(p);
    var s0 := run[|who|];
    var v := s0.cells[Slot(p, 2)].data;
    var s1 := SetPc(s0, 1, PopRelease(p, v));
    run', who' := Go(run, who, 1, s1);
    s' := SetPc(WriteSeq(s1, p, p + 2), 1, Idle).(returned := s1.returned[p := v]);
    run', who' := Go(run', who', 1, s');
  }

  /** Thread 0 loads position 0, before its CAS also sees its cell free, and falls asleep. */
  lemma FallAsleep(z: Pc<int>) returns (run: seq<State<int>>, who: seq<Tid>)
    requires Asleep(z)
    ensures |run| == |who| + 1 && RunTo(run, who, run[|who|]) && Resting(run[|who|], z, 0)
  {
    hide Slot, GoodCap;
    ParitySlots(0);
    SlotSmall(0, 2);
    SlotSmall(1, 2);
    var s0 := State(2, 0, 0, [Cell(0, 0), Cell(1, 0)], map[0 := Idle, 1 := Idle], [], [], map[]);
    run, who := [s0], [];
    var s1 := SetPc(s0, 0, if z.PopSeq? then PopLoad else PushLoad(8));
    run, who := Go(run, who, 0, s1);
    var s2 := SetPc(s1, 0, if z.PopSeq? then PopSeq(0) else PushSeq(8, 0));
    run, who := Go(run, who, 0, s2);
    if z.PushCas? {
      var s3 := SetPc(s2, 0, z);
      run, who := Go(run, who, 0, s3);
    }
  }

  lemma {:induction false} Laps(z: Pc<int>, p: nat) returns (run: seq<State<int>>, who: seq<Tid>)
    requires Asleep(z)
    ensures |run| == |who| + 1 && RunTo(run, who, run[|who|]) && Resting(run[|who|], z, p)
  {
    hide RunTo, Scene, Asleep;
    if p == 0 {
      run, who := FallAsleep(z);
    } else {
      var s;
      run, who := Laps(z, p - 1);
      run, who, s := SoloClaim(run, who, z, p - 1, p - 1, p);
      run, who, s := SoloPublish(run, who, z, p - 1, p - 1, p);
      run, who, s := SoloTake(run, who, z, p - 1, p);
      run, who, s := SoloRelease(run, who, z, p - 1);
    }
  }

  /** After p laps, thread 1 leaves one element in the ring. */
  lemma LeaveOne(z: Pc<int>, p: nat) returns (run: seq<State<int>>, who: seq<Tid>, s: State<int>)
    requires Asleep(z)
    ensures RunTo(run, who, s) && Scene(s, z, p, p + 1, Idle, p, p + 1, p + 1)
  {
    hide RunTo, Slot, Asleep;
    run, who := Laps(z, p);
    run, who, s := SoloClaim(run, who, z, p, p, p + 1);
    run, who, s := SoloPublish(run, who, z, p, p, p + 1);
  }

  /** Thread 1 fills the ring from rest. */
  lemma FillUp(z: Pc<int>, p: nat) returns (run: seq<State<int>>, who: seq<Tid>, s: State<int>)
    requires Asleep(z)
    ensures RunTo(run, who, s) && s.pcs == map[0 := z, 1 := Idle] && s.cap == 2 && s.head == p && s.tail == p + 2
  {
    hide RunTo, Slot, Asleep;
    run, who, s := LeaveOne(z, p);
    ParitySlots(p);
    assert Scene(s, z, p, p + 1, Idle, p + 1, p + 1, p + 1);
    run, who, s := SoloClaim(run, who, z, p, p + 1, p + 1);
    run, who, s := SoloPublish(run, who, z, p, p + 1, p + 1);
  }

  /**
   The timing condition is needed: from initialisation on, a timely run of two threads leads to a
   full ring in which thread 0 has slept across 2^32 claims; its CAS succeeds and overfills the ring.
   */
  lemma SleepingCasOverfills() returns (run: seq<State<int>>, who: seq<Tid>)
    ensures IsRun(run, who) && run[0].cap == 2
    ensures var s := run[|who|]; var s' := PushClaim(s, 0, 8);
      Inv(s) && !Timely(s, 0) && Next(s, 0, s') && s'.tail > s'.head + s'.cap && !Inv(s')
  {
    hide AnyRun, Inv, Slot;
    var s;
    run, who, s := FillUp(PushCas(8, 0), TWO32 - 2);
    LapsCap(run, who);
    RunInv(run, who, |who|);
    assert PushStep(s, 0, PushClaim(s, 0, 8));
    TooFull(PushClaim(s, 0, 8));
  }

  /**
   A pusher that sleeps across 2^31 claims between its load of tail and its seq read: the ring is empty
   and at rest, and yet the only step it can take is to give up as if the ring were full.
   */
  lemma SleepingPushFindsFull() returns (run: seq<State<int>>, who: seq<Tid>)
    ensures IsRun(run, who) && run[0].cap == 2
    ensures var s := run[|who|];
      && Inv(s) && s.head == s.tail == TWO31 && s.pcs == map[0 := PushSeq(8, 0), 1 := Idle]
      && Next(s, 0, SetPc(s, 0, Idle)) && forall s' :: Next(s, 0, s') ==> s' == SetPc(s, 0, Idle)
  {
    hide AnyRun, Inv, Slot, IsRun;
    run, who := Laps(PushSeq(8, 0), TWO31);
    var s := run[|who|];
    FromRun(run, who);
    EvenSlot();
    assert Diff32(Wrap(TWO31), 0) == -TWO31;
    assert PushStep(s, 0, SetPc(s, 0, Idle));
  }

  /**
   A popper that sleeps across 2^31 takes between its load of head and its seq read: an element is
   there, and yet the only step it can take is to give up as if the ring were empty.
   */
  lemma SleepingPopFindsEmpty() returns (run: seq<State<int>>, who: seq<Tid>)
    ensures IsRun(run, who) && run[0].cap == 2
    ensures var s := run[|who|];
      && Inv(s) && s.head == TWO31 && s.tail == TWO31 + 1 && s.pcs == map[0 := PopSeq(0), 1 := Idle]
      && Next(s, 0, SetPc(s, 0, Idle)) && forall s' :: Next(s, 0, s') ==> s' == SetPc(s, 0, Idle)
  {
    hide AnyRun, Inv, Slot, IsRun;
    var s;
    run, who, s := LeaveOne(PopSeq(0), TWO31);
    FromRun(run, who);
    EvenSlot();
    assert Diff32(Wrap(TWO31 + 1), Wrap(1)) == -TWO31;
    assert PopStep(s, 0, SetPc(s, 0, Idle));
  }

  lemma FromRun(run: seq<State<int>>, who: seq<Tid>)
    requires |run| == |who| + 1 && RunTo(run, who, run[|who|]) && run[|who|].cap == 2
    ensures IsRun(run, who) && run[0].cap == 2 && Inv(run[|who|])
  {
    hide Inv, AnyRun;
    LapsCap(run, who);
    RunInv(run, who, |who|);
  }

  lemma EvenSlot()
    ensures GoodCap(2) && Slot(TWO31, 2) == Slot(0, 2)
  {
    ParitySlots(0);
    SlotIsMod(TWO31, 2);
    SlotIsMod(0, 2);
  }

  lemma TooFull(s: State<int>)
    requires s.tail > s.head + s.cap
    ensures !Inv(s)
  {
  }

  lemma LapsCap(run: seq<State<int>>, who: seq<Tid>)
    requires IsRun(run, who)
    ensures run[0].cap == run[|who|].cap
  {
    TailGrows(run, who, 0, |who|);
  }

  /** One thread on a ring of one slot: its first push, then the start of its second. */
  ghost function OneSlotState(k: nat): State<int> {
    if k == 0 then State(1, 0, 0, [Cell(0, 0)], map[0 := Idle], [], [], map[])
    else if k == 1 then State(1, 0, 0, [Cell(0, 0)], map[0 := PushLoad(7)], [], [], map[])
    else if k == 2 then State(1, 0, 0, [Cell(0, 0)], map[0 := PushSeq(7, 0)], [], [], map[])
    else if k == 3 then State(1, 0, 0, [Cell(0, 0)], map[0 := PushCas(7, 0)], [], [], map[])
    else if k == 4 then State(1, 0, 1, [Cell(0, 0)], map[0 := PushCopy(7, 0)], [Claim(0, 7)], [], map[])
    else if k == 5 then State(1, 0, 1, [Cell(0, 7)], map[0 := PushPublish(7, 0)], [Claim(0, 7)], [], map[])
    else if k == 6 then State(1, 0, 1, [Cell(1, 7)], map[0 := Idle], [Claim(0, 7)], [], map[])
    else if k == 7 then State(1, 0, 1, [Cell(1, 7)], map[0 := PushLoad(8)], [Claim(0, 7)], [], map[])
    else if k == 8 then State(1, 0, 1, [Cell(1, 7)], map[0 := PushSeq(8, 1)], [Claim(0, 7)], [], map[])
    else if k == 9 then State(1, 0, 1, [Cell(1, 7)], map[0 := PushCas(8, 1)], [Claim(0, 7)], [], map[])
    else State(1, 0, 2, [Cell(1, 7)], map[0 := PushCopy(8, 1)], [Claim(0, 7), Claim(0, 8)], [], map[])
  }

  ghost function OneSlotRun(): seq<State<int>> {
    seq(11, k requires 0 <= k < 11 => OneSlotState(k))
  }

  lemma SoloStep(s: State<int>, s': State<int>)
    requires Shape(s) && s.cap == 1 && s.pcs.Keys == {0} && s'.pcs.Keys == {0}
    requires match s.pcs[0]
      case Idle => s'.pcs[0].PushLoad? && s' == s.(pcs := s'.pcs)
      case PushLoad(v) => s'.pcs[0] == PushSeq(v, s.tail) && s' == s.(pcs := s'.pcs)
      case PushSeq(v, pos) => s.tail == pos == s.cells[0].stamp && s'.pcs[0] == PushCas(v, pos) && s' == s.(pcs := s'.pcs)
      case PushCas(v, pos) => s.tail == pos && s'.pcs[0] == PushCopy(v, pos)
                              && s' == s.(pcs := s'.pcs, tail := pos + 1, claims := s.claims + [Claim(0, v)])
      case PushCopy(v, pos) => s'.pcs[0] == PushPublish(v, pos) && s' == s.(pcs := s'.pcs, cells := [Cell(s.cells[0].stamp, v)])
      case PushPublish(v, pos) => s'.pcs[0] == Idle && s' == s.(pcs := s'.pcs, cells := [Cell(pos + 1, s.cells[0].data)])
      case _ => false
    ensures Next(s, 0, s')
  {
    assert s'.pcs == s.pcs[0 := s'.pcs[0]];
    if s.pcs[0].Idle? { assert s' == SetPc(s, 0, PushLoad(s'.pcs[0].v)); } else { assert PushStep(s, 0, s'); }
  }

  lemma OneSlotStep(k: nat)
    requires k < 10
    ensures Timely(OneSlotState(k), 0) && Next(OneSlotState(k), 0, OneSlotState(k + 1))
  {
    hide Next;
    assert And(1, 0) == 0;
    SoloStep(OneSlotState(k), OneSlotState(k + 1));
  }

  /** cap == 1 passes gmk_ring_mpmc_init but is no queue: one thread pushes twice into its single cell. */
  lemma OneSlotOverfills()
    ensures IsRun(OneSlotRun(), seq(10, _ => 0)) && OneSlotRun()[0].cap == 1
    ensures OneSlotRun()[10].tail > OneSlotRun()[10].head + OneSlotRun()[10].cap
  {
    var run, who := OneSlotRun(), seq(10, _ => 0);
    forall k | 0 <= k < |who| ensures Timely(run[k], who[k]) && Next(run[k], who[k], run[k + 1]) { OneSlotStep(k); }
    assert And(1, 0) == 0;
    assert Init(run[0]);
  }

  /** And once two pushes have been published there, a pop goes round for ever: it neither takes an element nor gives up. */
  lemma OneSlotPopSpins<T(!new)>(s: State<T>, t: Tid, s': State<T>)
    requires Shape(s) && s.cap == 1 && s.cells[0].stamp == s.tail && s.head + 2 <= s.tail <= s.head + TWO31
    requires t in s.pcs && (s.pcs[t] == PopLoad || s.pcs[t] == PopSeq(s.head)) && Next(s, t, s')
    ensures s'.pcs[t] == PopLoad || s'.pcs[t] == PopSeq(s.head)
    ensures s' == SetPc(s, t, s'.pcs[t])
  {
    SignedDistance(s.tail, s.head + 1);
  }

  ghost predicate NeverOverfills(cap: nat) {
    forall run: seq<State<int>>, who: seq<Tid>, k: nat ::
      IsRun(run, who) && run[0].cap == cap && k < |run| ==> run[k].tail <= run[k].head + run[k].cap
  }

  /** Of the capacities that initialisation accepts, exactly those from 2 on give a ring that never overfills. */
  lemma NeverOverfillsIff(cap: nat)
    requires GoodCap(cap)
    ensures NeverOverfills(cap) <==> cap >= 2
  {
    hide GoodCap, Init, Next, Timely;
    if cap >= 2 {
      forall run: seq<State<int>>, who: seq<Tid>, k: nat | IsRun(run, who) && run[0].cap == cap && k < |run|
        ensures run[k].tail <= run[k].head + run[k].cap { RunInv(run, who, k); }
    } else {
      assert cap == 1 by { PositiveCap(cap); }
      OneSlotOverfills();
      assert !NeverOverfills(1) by {
        var run, who := OneSlotRun(), seq(10, _ => 0);
        assert IsRun(run, who) && run[10].tail > run[10].head + run[10].cap;
      }
    }
  }

  lemma PositiveCap(cap: nat)
    requires GoodCap(cap)
    ensures cap >= 1
  {
  }
}
