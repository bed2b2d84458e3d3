/** The event queue of src/sched_evq.c on values: keys, binary-heap sifting, push and due-pop. */
module EventHeap {
  import opened Words
  import opened Tasks

  datatype Entry = Entry(key: nat, task: Task)

  // ---- keys ------------------------------------------------------------------

  function Tick(t: Task): nat {
    Wrap(t.meta0)
  }

  /** evq_key: tick << 32 | priority << 16 | serial, in 64 bits. */
  function Key(t: Task, serial: nat): nat {
    Or(Or(Tick(t) * TWO32, Priority(t) * 0x1_0000), serial)
  }

  /** The key always orders by tick, then priority OR-ed with the high half of the serial, then its low half. */
  lemma KeyFields(t: Task, serial: nat)
    requires serial < TWO32
    ensures Key(t, serial) == Tick(t) * TWO32 + Or(Priority(t), serial / 0x1_0000) * 0x1_0000 + serial % 0x1_0000
    ensures Or(Priority(t), serial / 0x1_0000) < 0x1_0000
  {
    Pow2Words();
    OrFields(Tick(t), Priority(t), serial, 16, 32);
  }

  lemma OrFields(high: nat, p: nat, serial: nat, k16: nat, k32: nat)
    requires p < 4 && serial < TWO32 && Pow2(k16) == 0x1_0000 && Pow2(k32) == TWO32
    ensures Or(Or(high * TWO32, p * 0x1_0000), serial) == high * TWO32 + Or(p, serial / 0x1_0000) * 0x1_0000 + serial % 0x1_0000
    ensures Or(p, serial / 0x1_0000) < 0x1_0000
  {
    hide Or;
    OrInto(high * TWO32, high, 0, p * 0x1_0000, k32, TWO32);
    OrZero(p * 0x1_0000);
    OrInto(high * TWO32 + p * 0x1_0000, high, p * 0x1_0000, serial, k32, TWO32);
    OrShifted(p * 0x1_0000, p, serial, serial / 0x1_0000, serial % 0x1_0000, k16, 0x1_0000);
    OrBelow(p, serial / 0x1_0000, k16);
  }

  lemma OrZero(x: nat)
    ensures Or(0, x) == x
  {
  }

  predicate LexBefore(a: Task, b: Task) {
    || Tick(a) < Tick(b)
    || (Tick(a) == Tick(b) && Priority(a) < Priority(b))
    || (Tick(a) == Tick(b) && Priority(a) == Priority(b) && a.serial < b.serial)
  }

  predicate KeyBefore(a: Task, b: Task) {
    Key(a, a.serial) < Key(b, b.serial)
  }

  lemma LexBelow65536(a: Task, b: Task)
    requires a.serial < 0x1_0000 && b.serial < 0x1_0000
    ensures KeyBefore(a, b) <==> LexBefore(a, b)
  {
    KeyFields(a, a.serial);
    KeyFields(b, b.serial);
    assert Or(Priority(a), 0) == Priority(a) && Or(Priority(b), 0) == Priority(b);
  }

  ghost predicate KeysAreLexicographic(n: nat) {
    forall a: Task, b: Task :: a.serial < n && b.serial < n ==> (KeyBefore(a, b) <==> LexBefore(a, b))
  }

  /** Keys order events by (tick, priority, push order) exactly as long as serials stay below 65536. */
  lemma LexicographicIffShort(n: nat)
    ensures KeysAreLexicographic(n) <==> n <= 0x1_0000
  {
    if n <= 0x1_0000 {
      forall a: Task, b: Task | a.serial < n && b.serial < n ensures KeyBefore(a, b) <==> LexBefore(a, b) { LexBelow65536(a, b); }
    } else {
      // priority 1 pushed first, priority 0 pushed as event 65536: equal keys
      var a, b := Task(0, 0, 0, 0, 0x1_0000, 0, 0, 0, 0, 0), Task(0, 1, 0, 0, 0, 0, 0, 0, 0, 0);
      assert And(0, 3) == 0 && And(1, 3) == 1;
      KeyFields(a, 0x1_0000);
      KeyFields(b, 0);
      assert Or(0, 1) == 1 && Or(1, 0) == 1;
      assert LexBefore(a, b) && !KeyBefore(a, b);
    }
  }

  /** Whatever the serials, the tick is the high word of the key. */
  lemma KeyTick(t: Task, serial: nat)
    requires serial < TWO32
    ensures Key(t, serial) / TWO32 == Tick(t)
  {
    KeyFields(t, serial);
    DivModUnique(Key(t, serial), Tick(t), TWO32, Or(Priority(t), serial / 0x1_0000) * 0x1_0000 + serial % 0x1_0000);
  }

  // ---- heap order --------------------------------------------------------------

  function Parent(i: nat): nat
    requires i > 0
  {
    (i - 1) / 2
  }

  function Swap(s: seq<Entry>, i: nat, j: nat): seq<Entry>
    requires i < |s| && j < |s|
  {
    s[i := s[j]][j := s[i]]
  }

  ghost predicate Heap(s: seq<Entry>) {
    forall i :: 0 < i < |s| ==> s[Parent(i)].key <= s[i].key
  }

  function SiftUp(s: seq<Entry>, i: nat): (r: seq<Entry>)
    requires i < |s|
    ensures |r| == |s|
    decreases i
  {
    if i > 0 && s[i].key < s[Parent(i)].key then SiftUp(Swap(s, i, Parent(i)), Parent(i)) else s
  }

  function Smallest(s: seq<Entry>, i: nat): (m: nat)
    requires i < |s|
    ensures m == i || (i < m < |s| && Parent(m) == i && s[m].key < s[i].key)
    ensures forall c :: 0 < c < |s| && Parent(c) == i ==> s[m].key <= s[c].key
    ensures s[m].key <= s[i].key
  {
    var l := if 2 * i + 1 < |s| && s[2 * i + 1].key < s[i].key then 2 * i + 1 else i;
    if 2 * i + 2 < |s| && s[2 * i + 2].key < s[l].key then 2 * i + 2 else l
  }

  function SiftDown(s: seq<Entry>, i: nat): (r: seq<Entry>)
    requires i < |s|
    ensures |r| == |s|
    decreases |s| - i
  {
    var m := Smallest(s, i);
    if m != i then SiftDown(Swap(s, i, m), m) else s
  }

  /** One round of each loop. */
  lemma SiftUpOnce(s: seq<Entry>, i: nat)
    requires i < |s|
    ensures SiftUp(s, i) == if i > 0 && s[i].key < s[Parent(i)].key then SiftUp(Swap(s, i, Parent(i)), Parent(i)) else s
  {
  }

  lemma SiftDownOnce(s: seq<Entry>, i: nat, left: nat, right: nat, m: nat)
    requires i < |s| && left == 2 * i + 1 && right == 2 * i + 2
    requires m == (var l := if left < |s| && s[left].key < s[i].key then left else i; if right < |s| && s[right].key < s[l].key then right else l)
    ensures i <= m < |s| && SiftDown(s, i) == if m != i then SiftDown(Swap(s, i, m), m) else s
  {
    hide Swap;
    assert m == Smallest(s, i);
  }

  lemma SwapKeeps(s: seq<Entry>, i: nat, j: nat)
    requires i < |s| && j < |s|
    ensures multiset(Swap(s, i, j)) == multiset(s)
  {
  }

  lemma {:induction false} SiftUpKeeps(s: seq<Entry>, i: nat)
    requires i < |s|
    ensures multiset(SiftUp(s, i)) == multiset(s)
    decreases i
  {
    if i > 0 && s[i].key < s[Parent(i)].key {
      SwapKeeps(s, i, Parent(i));
      SiftUpKeeps(Swap(s, i, Parent(i)), Parent(i));
    }
  }

  lemma {:induction false} SiftDownKeeps(s: seq<Entry>, i: nat)
    requires i < |s|
    ensures multiset(SiftDown(s, i)) == multiset(s)
    decreases |s| - i
  {
    var m := Smallest(s, i);
    if m != i {
      SwapKeeps(s, i, m);
      SiftDownKeeps(Swap(s, i, m), m);
    }
  }

  /** Heap order everywhere except that entry i may be too small for its place. */
  ghost predicate HeapAbove(s: seq<Entry>, i: nat)
    requires i < |s|
  {
    && (forall j :: 0 < j < |s| && j != i ==> s[Parent(j)].key <= s[j].key)
    && (i > 0 ==> forall j :: 0 < j < |s| && Parent(j) == i ==> s[Parent(i)].key <= s[j].key)
  }

  lemma {:induction false} SiftUpOrders(s: seq<Entry>, i: nat)
    requires i < |s| && HeapAbove(s, i)
    ensures Heap(SiftUp(s, i))
    decreases i
  {
    if i > 0 && s[i].key < s[Parent(i)].key {
      SiftUpOrders(Swap(s, i, Parent(i)), Parent(i));
    }
  }

  /** Heap order everywhere except that entry i may be too large for its place. */
  ghost predicate HeapBelow(s: seq<Entry>, i: nat)
    requires i < |s|
  {
    && (forall j :: 0 < j < |s| && Parent(j) != i ==> s[Parent(j)].key <= s[j].key)
    && (i > 0 ==> forall j :: 0 < j < |s| && Parent(j) == i ==> s[Parent(i)].key <= s[j].key)
  }

  lemma {:induction false} SiftDownOrders(s: seq<Entry>, i: nat)
    requires i < |s| && HeapBelow(s, i)
    ensures Heap(SiftDown(s, i))
    decreases |s| - i
  {
    var m := Smallest(s, i);
    if m != i { SiftDownOrders(Swap(s, i, m), m); }
  }

  lemma {:induction false} RootIsLeast(s: seq<Entry>, k: nat)
    requires Heap(s) && k < |s|
    ensures s[0].key <= s[k].key
    decreases k
  {
    if k > 0 { RootIsLeast(s, Parent(k)); }
  }

  // ---- the queue ---------------------------------------------------------------

  /** Entries carry the key of their own task and serial. */
  ghost predicate Keyed(s: seq<Entry>) {
    forall e :: e in s ==> e.key == Key(e.task, e.task.serial) && e.task.serial < TWO32
  }

  ghost predicate EvqInv(s: seq<Entry>) {
    Heap(s) && Keyed(s)
  }

  function NewEntry(t: Task, serial: nat): Entry {
    Entry(Key(t, serial), t.(serial := serial))
  }

  function Push(s: seq<Entry>, t: Task, serial: nat): seq<Entry> {
    SiftUp(s + [NewEntry(t, serial)], |s|)
  }

  predicate IsDue(s: seq<Entry>, tick: nat) {
    s != [] && s[0].key / TWO32 <= tick
  }

  /** What remains after the root is taken out. */
  function Remove(s: seq<Entry>): (r: seq<Entry>)
    requires s != []
    ensures |r| == |s| - 1
  {
    var n := |s| - 1;
    if n > 0 then SiftDown(s[..n][0 := s[n]], 0) else []
  }

  lemma PushKeeps(s: seq<Entry>, t: Task, serial: nat)
    requires EvqInv(s) && serial < TWO32
    ensures EvqInv(Push(s, t, serial))
    ensures multiset(Push(s, t, serial)) == multiset(s) + multiset{NewEntry(t, serial)}
  {
    var w := s + [NewEntry(t, serial)];
    SiftUpOrders(w, |s|);
    SiftUpKeeps(w, |s|);
    forall e | e in Push(s, t, serial) ensures e.key == Key(e.task, e.task.serial) && e.task.serial < TWO32 {
      assert e in multiset(Push(s, t, serial)) && e in multiset(w);
    }
  }

  lemma RootBefore(s: seq<Entry>)
    requires Heap(s) && s != []
    ensures forall e :: e in s ==> s[0].key <= e.key
  {
    forall e | e in s ensures s[0].key <= e.key { var k :| 0 <= k < |s| && s[k] == e; RootIsLeast(s, k); }
  }

  lemma LastToRoot(s: seq<Entry>)
    requires |s| > 1 && Heap(s)
    ensures var w := s[..|s| - 1][0 := s[|s| - 1]]; HeapBelow(w, 0) && multiset(w) == multiset(s) - multiset{s[0]}
  {
    var n := |s| - 1;
    var w := s[..n][0 := s[n]];
    assert s == [s[0]] + s[1..n] + [s[n]];
    assert w == [s[n]] + s[1..n];
  }

  lemma RemoveKeeps(s: seq<Entry>)
    requires EvqInv(s) && s != []
    ensures EvqInv(Remove(s)) && multiset(Remove(s)) == multiset(s) - multiset{s[0]}
  {
    if |s| > 1 {
      var w := s[..|s| - 1][0 := s[|s| - 1]];
      LastToRoot(s);
      SiftDownOrders(w, 0);
      SiftDownKeeps(w, 0);
      forall e | e in Remove(s) ensures e in s { assert e in multiset(Remove(s)); }
    } else {
      assert s == [s[0]];
    }
  }

  /** A due-pop is refused exactly when no stored event has a tick at or before the current one. */
  lemma RefusedIffNoneDue(s: seq<Entry>, tick: nat)
    requires EvqInv(s)
    ensures !IsDue(s, tick) <==> forall e :: e in s ==> Tick(e.task) > tick
    ensures IsDue(s, tick) ==> forall e :: e in s ==> Tick(s[0].task) <= Tick(e.task)
  {
    forall e | e in s ensures e.key / TWO32 == Tick(e.task) { KeyTick(e.task, e.task.serial); }
    if s != [] {
      RootBefore(s);
      forall e | e in s ensures Tick(s[0].task) <= Tick(e.task) { DivMonotone(s[0].key, e.key); }
      assert s[0] in s;
    }
  }

  lemma DivMonotone(a: nat, b: nat)
    requires a <= b
    ensures a / TWO32 <= b / TWO32
  {
  }

  /** Popping until refused. */
  function Drain(s: seq<Entry>, tick: nat): (r: (seq<Entry>, seq<Entry>))
    decreases |s|
  {
    if IsDue(s, tick) then
      var (out, rest) := Drain(Remove(s), tick);
      ([s[0]] + out, rest)
    else
      ([], s)
  }

  ghost predicate SortedByKey(out: seq<Entry>) {
    forall i, j :: 0 <= i < j < |out| ==> out[i].key <= out[j].key
  }

  lemma CountPopped(all: multiset<Entry>, e: Entry, left: multiset<Entry>, out: seq<Entry>, rest: multiset<Entry>)
    requires e in all && left == all - multiset{e} && multiset(out) + rest == left
    ensures multiset([e] + out) + rest == all
  {
  }

  /** Draining takes nothing away and leaves nothing that is due. */
  lemma {:induction false} DrainKeeps(s: seq<Entry>, tick: nat)
    requires EvqInv(s)
    ensures var (out, rest) := Drain(s, tick);
      multiset(out) + multiset(rest) == multiset(s) && EvqInv(rest) && !IsDue(rest, tick)
    decreases |s|
  {
    if IsDue(s, tick) {
      var r := Remove(s);
      RemoveKeeps(s);
      DrainKeeps(r, tick);
      assert s[0] in multiset(s);
      CountPopped(multiset(s), s[0], multiset(r), Drain(r, tick).0, multiset(Drain(r, tick).1));
    }
  }

  lemma {:induction false} DrainSorts(s: seq<Entry>, tick: nat)
    requires EvqInv(s)
    ensures SortedByKey(Drain(s, tick).0) && forall e :: e in Drain(s, tick).0 ==> e in s && Tick(e.task) <= tick
    decreases |s|
  {
    if IsDue(s, tick) {
      var r := Remove(s);
      RemoveKeeps(s);
      DrainSorts(r, tick);
      RootBefore(s);
      KeyTick(s[0].task, s[0].task.serial);
      forall e | e in r ensures e in s { assert e in multiset(r); }
    }
  }

  /** Draining yields exactly the due events, in key order, and keeps exactly the others. */
  lemma DrainYieldsDue(s: seq<Entry>, tick: nat, e: Entry)
    requires EvqInv(s)
    ensures var (out, rest) := Drain(s, tick);
      && SortedByKey(out)
      && multiset(out)[e] == (if Tick(e.task) <= tick then multiset(s)[e] else 0)
      && multiset(rest)[e] == (if Tick(e.task) <= tick then 0 else multiset(s)[e])
  {
    DrainKeeps(s, tick);
    DrainSorts(s, tick);
    var (out, rest) := Drain(s, tick);
    RefusedIffNoneDue(rest, tick);
    assert e in multiset(out) <==> e in out;
    assert e in multiset(rest) <==> e in rest;
  }

  /** While serials are below 65536, draining is lexicographic by (tick, priority, push order). */
  lemma DrainIsLexicographic(s: seq<Entry>, tick: nat, i: nat, j: nat)
    requires EvqInv(s) && (forall e :: e in s ==> e.task.serial < 0x1_0000)
    requires i < j < |Drain(s, tick).0|
    ensures var out := Drain(s, tick).0; !LexBefore(out[j].task, out[i].task)
  {
    DrainSorts(s, tick);
    var out := Drain(s, tick).0;
    assert out[i] in out && out[j] in out;
    LexBelow65536(out[j].task, out[i].task);
  }

  // ---- runs ----------------------------------------------------------------------

  datatype HeapOp = PushOp(t: Task) | PopOp(tick: nat)

  /** The stored entries and the next serial. */
  datatype HeapState = HeapState(entries: seq<Entry>, nextSeq: nat)

  /** gmk_evq_push and gmk_evq_pop_due below capacity. */
  function HeapStep(h: HeapState, op: HeapOp): HeapState {
    match op
    case PushOp(t) => HeapState(Push(h.entries, t, h.nextSeq), Wrap(h.nextSeq + 1))
    case PopOp(tick) => if IsDue(h.entries, tick) then HeapState(Remove(h.entries), h.nextSeq) else h
  }

  function HeapRun(h: HeapState, ops: seq<HeapOp>): HeapState
    decreases |ops|
  {
    if ops == [] then h else HeapRun(HeapStep(h, ops[0]), ops[1..])
  }

  function Pushes(ops: seq<HeapOp>): nat {
    if ops == [] then 0 else (if ops[0].PushOp? then 1 else 0) + Pushes(ops[1..])
  }

  ghost predicate Lexicographic(out: seq<Entry>) {
    forall i, j :: 0 <= i < j < |out| ==> !LexBefore(out[j].task, out[i].task)
  }

  /** Whatever is pushed and popped, with at most n pushes in all, a drain is lexicographic. */
  ghost predicate DrainsAreLexicographic(n: nat) {
    forall ops: seq<HeapOp>, tick: nat :: Pushes(ops) <= n ==> Lexicographic(Drain(HeapRun(HeapState([], 0), ops).entries, tick).0)
  }

  /** Serials stay below the number of pushes. */
  lemma {:induction false} SerialsBelow(h: HeapState, ops: seq<HeapOp>)
    requires EvqInv(h.entries) && h.nextSeq + Pushes(ops) < TWO32 && forall e :: e in h.entries ==> e.task.serial < h.nextSeq
    ensures var r := HeapRun(h, ops);
      && EvqInv(r.entries) && r.nextSeq == h.nextSeq + Pushes(ops)
      && forall e :: e in r.entries ==> e.task.serial < r.nextSeq
    decreases |ops|
  {
    hide EvqInv, Push, Remove, NewEntry, IsDue;
    if ops != [] {
      var h1 := HeapStep(h, ops[0]);
      match ops[0] {
        case PushOp(t) =>
          PushKeeps(h.entries, t, h.nextSeq);
          forall e | e in h1.entries ensures e.task.serial < h1.nextSeq { NewOrOld(h.entries, t, h.nextSeq, e); }
        case PopOp(tick) =>
          if IsDue(h.entries, tick) {
            StillStored(h.entries, tick);
            forall e | e in h1.entries ensures e in h.entries { assert e in multiset(h1.entries); }
          }
      }
      SerialsBelow(h1, ops[1..]);
    }
  }

  lemma NewOrOld(s: seq<Entry>, t: Task, serial: nat, e: Entry)
    requires EvqInv(s) && serial < TWO32 && e in Push(s, t, serial)
    ensures e in s || e.task.serial == serial
  {
    PushKeeps(s, t, serial);
    assert e in multiset(Push(s, t, serial));
  }

  lemma StillStored(s: seq<Entry>, tick: nat)
    requires EvqInv(s) && IsDue(s, tick)
    ensures EvqInv(Remove(s)) && multiset(Remove(s)) == multiset(s) - multiset{s[0]}
  {
    RemoveKeeps(s);
  }

  /** Priority 1 for tick 1 pushed first, then tasks for tick 0, and last priority 0 for tick 1. */
  function First(): Task { Task(0, 1, 0, 0, 0, 0, 0, 0, 1, 0) }
  function Between(): Task { Task(0, 0, 0, 0, 0, 0, 0, 0, 0, 0) }
  function Last(): Task { Task(0, 0, 0, 0, 0, 0, 0, 0, 1, 0) }

  /** The first push, then k tasks that are popped again. */
  function Traffic(k: nat): seq<HeapOp> {
    if k == 0 then [PushOp(First())] else Traffic(k - 1) + [PushOp(Between()), PopOp(0)]
  }

  lemma {:induction false} HeapRunConcat(h: HeapState, a: seq<HeapOp>, b: seq<HeapOp>)
    ensures HeapRun(h, a + b) == HeapRun(HeapRun(h, a), b) && Pushes(a + b) == Pushes(a) + Pushes(b)
    decreases |a|
  {
    hide HeapStep;
    if a == [] {
      assert a + b == b;
    } else {
      assert (a + b)[1..] == a[1..] + b;
      HeapRunConcat(HeapStep(h, a[0]), a[1..], b);
    }
  }

  lemma TrafficKeys(serial: nat)
    requires serial <= 0x1_0000
    ensures Key(First(), 0) == TWO32 + 0x1_0000 && Key(Last(), 0x1_0000) == TWO32 + 0x1_0000
    ensures serial < 0x1_0000 ==> Key(Between(), serial) < TWO32
    ensures Priority(First()) == 1 && Priority(Last()) == 0
  {
    assert And(0, 3) == 0 && And(1, 3) == 1;
    KeyFields(First(), 0);
    KeyFields(Last(), 0x1_0000);
    KeyFields(Between(), serial);
    assert Or(1, 0) == 1 && Or(0, 1) == 1 && Or(0, 0) == 0;
  }

  lemma {:induction false} TrafficLeaves(k: nat)
    requires k < 0x1_0000
    ensures HeapRun(HeapState([], 0), Traffic(k)) == HeapState([NewEntry(First(), 0)], k + 1) && Pushes(Traffic(k)) == k + 1
  {
    hide Key;
    if k == 0 {
      OneStep(HeapState([], 0), PushOp(First()));
    } else {
      TrafficLeaves(k - 1);
      HeapRunConcat(HeapState([], 0), Traffic(k - 1), [PushOp(Between()), PopOp(0)]);
      PassesThrough(k);
    }
  }

  lemma OneStep(h: HeapState, op: HeapOp)
    ensures HeapRun(h, [op]) == HeapStep(h, op) && Pushes([op]) == if op.PushOp? then 1 else 0
  {
    assert [op][1..] == [];
    assert HeapRun(HeapStep(h, op), []) == HeapStep(h, op);
  }

  /** Two entries: the smaller key comes first, the earlier entry when the keys are equal. */
  lemma PushSecond(a: Entry, t: Task, serial: nat)
    ensures Push([a], t, serial) == if Key(t, serial) < a.key then [NewEntry(t, serial), a] else [a, NewEntry(t, serial)]
  {
    hide Key;
    var b := NewEntry(t, serial);
    assert [a] + [b] == [a, b];
    if b.key < a.key {
      assert Swap([a, b], 1, 0) == [b, a];
      assert SiftUp([b, a], 0) == [b, a];
    }
  }

  lemma RemoveOfTwo(a: Entry, b: Entry)
    ensures Remove([a, b]) == [b] && Remove([b]) == []
  {
    assert [a, b][..1][0 := b] == [b];
    assert SiftDown([b], 0) == [b];
  }

  /** A task for tick 0 goes in front and is popped at tick 0. */
  lemma PassesThrough(k: nat)
    requires 0 < k < 0x1_0000
    ensures var ops := [PushOp(Between()), PopOp(0)];
      HeapRun(HeapState([NewEntry(First(), 0)], k), ops) == HeapState([NewEntry(First(), 0)], k + 1) && Pushes(ops) == 1
  {
    hide Key, Push, Remove, First, Between;
    TrafficKeys(k);
    var first, between := NewEntry(First(), 0), NewEntry(Between(), k);
    var h := HeapState([first], k);
    PushSecond(first, Between(), k);
    var h1 := HeapStep(h, PushOp(Between()));
    assert h1 == HeapState([between, first], k + 1);
    RemoveOfTwo(between, first);
    var ops := [PushOp(Between()), PopOp(0)];
    assert ops[1..] == [PopOp(0)];
    OneStep(h1, PopOp(0));
  }

  lemma UrgentLast()
    ensures LexBefore(NewEntry(Last(), 0x1_0000).task, NewEntry(First(), 0).task)
  {
    hide Key;
    TrafficKeys(0x1_0000);
    SameFields(First(), 0);
    SameFields(Last(), 0x1_0000);
  }

  lemma SameFields(t: Task, serial: nat)
    ensures Tick(NewEntry(t, serial).task) == Tick(t) && Priority(NewEntry(t, serial).task) == Priority(t)
  {
  }

  /** Event 65536 is a more urgent one for the same tick: equal keys, so it is drained after the less urgent one. */
  lemma OneTooMany() returns (ops: seq<HeapOp>)
    ensures Pushes(ops) == 0x1_0001
    ensures !Lexicographic(Drain(HeapRun(HeapState([], 0), ops).entries, 1).0)
  {
    hide Key, Push, Remove, HeapRun, First, Last, LexBefore, Traffic, Pushes;
    TrafficLeaves(0xFFFF);
    TrafficKeys(0x1_0000);
    ops := Traffic(0xFFFF) + [PushOp(Last())];
    HeapRunConcat(HeapState([], 0), Traffic(0xFFFF), [PushOp(Last())]);
    var first, last := NewEntry(First(), 0), NewEntry(Last(), 0x1_0000);
    OneStep(HeapState([first], 0x1_0000), PushOp(Last()));
    PushSecond(first, Last(), 0x1_0000);
    RemoveOfTwo(first, last);
    var out := Drain([first, last], 1).0;
    assert out == [first] + Drain([last], 1).0;
    UrgentLast();
    assert LexBefore(out[1].task, out[0].task);
  }

  /** Drains are in (tick, priority, push order) in every run of at most n pushes exactly for n up to 65536. */
  lemma DrainsAreLexicographicIff(n: nat)
    ensures DrainsAreLexicographic(n) <==> n <= 0x1_0000
  {
    hide EvqInv, HeapRun, Drain, LexBefore;
    if n <= 0x1_0000 {
      forall ops: seq<HeapOp>, tick: nat | Pushes(ops) <= n
        ensures Lexicographic(Drain(HeapRun(HeapState([], 0), ops).entries, tick).0)
      {
        EmptyIsHeap();
        SerialsBelow(HeapState([], 0), ops);
        var s := HeapRun(HeapState([], 0), ops).entries;
        var out := Drain(s, tick).0;
        forall i, j | 0 <= i < j < |out| ensures !LexBefore(out[j].task, out[i].task) { DrainIsLexicographic(s, tick, i, j); }
      }
    } else {
      var ops := OneTooMany();
    }
  }

  lemma EmptyIsHeap()
    ensures EvqInv([])
  {
  }
}
