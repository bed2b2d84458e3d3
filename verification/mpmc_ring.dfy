/** The MPMC ring of src/ring_mpmc.c used one call at a time: a bounded FIFO, across counter wrap-around. */
module MpmcRing {
  import opened Words
  import opened MpmcProtocol
  import opened Options

  /** The cells of a ring at rest that stores `q`, whose first element has position `first`. */
  ghost predicate Holds<T>(cells: seq<Cell<T>>, cap: nat, first: nat, q: seq<T>) {
    && GoodCap(cap) && |cells| == cap && |q| <= cap
    && (forall p :: first <= p < first + |q| ==> cells[Slot(p, cap)] == Cell(Wrap(p + 1), q[p - first]))
    && (forall p :: first + |q| <= p < first + cap ==> cells[Slot(p, cap)].stamp == Wrap(p))
  }

  lemma LapDistinct(p: nat, q: nat, cap: nat)
    requires GoodCap(cap) && p != q && p < q + cap && q < p + cap
    ensures Slot(p, cap) != Slot(q, cap)
  {
    if Slot(p, cap) == Slot(q, cap) {
      if p < q { SlotGap(p, q, cap); } else { SlotGap(q, p, cap); }
    }
  }

  lemma StoreNext<T>(cells: seq<Cell<T>>, cap: nat, first: nat, q: seq<T>, x: T)
    requires Holds(cells, cap, first, q) && |q| < cap
    ensures var p := first + |q|;
      Wrap(Wrap(p) + 1) == Wrap(p + 1) && Holds(cells[Slot(p, cap) := Cell(Wrap(p + 1), x)], cap, first, q + [x])
  {
    hide Slot, GoodCap;
    var p := first + |q|;
    WrapAdd(p, 1);
    forall r: nat | first <= r < first + cap && r != p ensures Slot(r, cap) != Slot(p, cap) { LapDistinct(r, p, cap); }
  }

  lemma TakeFirst<T>(cells: seq<Cell<T>>, cap: nat, first: nat, q: seq<T>)
    requires Holds(cells, cap, first, q) && q != []
    ensures var i := Slot(first, cap);
      && cells[i].data == q[0] && Wrap(Wrap(first) + 1) == Wrap(first + 1) && Wrap(Wrap(first) + cap) == Wrap(first + cap)
      && Holds(cells[i := Cell(Wrap(first + cap), q[0])], cap, first + 1, q[1..])
  {
    hide Slot, GoodCap;
    WrapAdd(first, 1);
    WrapAdd(first, cap);
    SlotNextLap(first, cap);
    var after := cells[Slot(first, cap) := Cell(Wrap(first + cap), q[0])];
    forall p | first + 1 <= p < first + |q| ensures after[Slot(p, cap)] == Cell(Wrap(p + 1), q[1..][p - (first + 1)]) {
      LapDistinct(p, first, cap);
    }
    forall p | first + |q| <= p < first + 1 + cap ensures after[Slot(p, cap)].stamp == Wrap(p) {
      if p < first + cap { LapDistinct(p, first, cap); }
    }
  }

  /** The two seq tests, read through 32-bit words, decide full and empty. */
  lemma SeqTests<T>(cells: seq<Cell<T>>, cap: nat, first: nat, q: seq<T>)
    requires Holds(cells, cap, first, q)
    ensures var p := first + |q|;
      Diff32(cells[Slot(p, cap)].stamp, Wrap(p)) == if |q| < cap then 0 else 1 - cap
    ensures Diff32(cells[Slot(first, cap)].stamp, Wrap(first + 1)) == if q == [] then -1 else 0
  {
    var p := first + |q|;
    if |q| < cap { SignedDistance(p, p); } else { SlotNextLap(first, cap); SignedDistance(first + 1, p); }
    if q == [] { SignedDistance(first, first + 1); } else { SignedDistance(first + 1, first + 1); }
  }

  class Ring<T(0)> {
    const cap: nat
    const mask: nat
    const cells: array<Cell<T>>
    var head: nat  // 32-bit words
    var tail: nat

    ghost var Contents: seq<T>
    ghost var first: nat  // position of Contents[0], counted from creation without wrap-around

    ghost predicate Valid()
      reads this, cells
    {
      && GoodCap(cap) && cells.Length == cap && mask == cap - 1
      && Holds(cells[..], cap, first, Contents)
      && head == Wrap(first) && tail == Wrap(first + |Contents|)
    }

    /** gmk_ring_mpmc_init: any 32-bit power of two is accepted. */
    constructor (slots: nat)
      requires GoodCap(slots)
      ensures cap == slots && fresh(cells) && Contents == [] && Valid()
    {
      cap, mask := slots, slots - 1;
      head, tail := 0, 0;
      Contents, first := [], 0;
      var a := new Cell<T>[slots];
      for i := 0 to slots
        invariant forall k :: 0 <= k < i ==> a[k].stamp == k
      {
        a[i] := a[i].(stamp := i);
      }
      cells := a;
      new;
      forall k: nat | k < cap ensures Slot(k, cap) == k { SlotSmall(k, cap); }
    }

    lemma Within()
      requires Valid()
      ensures 1 <= cap && |Contents| <= cap
    {
    }

    /** The claiming loop of push; `spurious` is how often the weak CAS fails for no reason. */
    method ClaimTail(spurious: nat) returns (ok: bool, t: nat, i: nat)
      requires Valid()
      modifies this`tail
      ensures ok <==> |Contents| < cap || cap == 1
      ensures i == Slot(first + |Contents|, cap)
      ensures t == old(tail) && tail == if ok then Wrap(t + 1) else t
    {
      hide Holds, GoodCap, And, Diff32;
      Within();
      SeqTests(cells[..], cap, first, Contents);
      t := tail;
      i := And(t, mask);
      var left := spurious;
      while true
        invariant t == tail == old(tail) && i == Slot(first + |Contents|, cap)
        decreases left
      {
        var diff := Diff32(cells[i].stamp, t);
        if diff == 0 {
          if left == 0 {
            tail := Wrap(t + 1);
            return true, t, i;
          }
          left, t := left - 1, tail;
          i := And(t, mask);
        } else if diff < 0 {
          return false, t, i;
        } else {
          t := tail;
          assert false;
        }
      }
    }

    /**
     gmk_ring_mpmc_push: appends, and is refused exactly when full.  Only a ring of one slot accepts an
     element when it is full, and is no queue from then on.
     */
    method Push(x: T, spurious: nat) returns (ok: bool)
      requires Valid()
      modifies this, cells
      ensures Valid() <==> cap >= 2 || old(Contents) == []
      ensures ok <==> |old(Contents)| < cap || cap == 1
      ensures Contents == if ok then old(Contents) + [x] else old(Contents)
      ensures first == old(first)
    {
      hide Holds, Slot, GoodCap;
      Within();
      ghost var before := cells[..];
      var t, i;
      ok, t, i := ClaimTail(spurious);
      if ok {
        Put(i, x, Wrap(t + 1));
        if |Contents| < cap { StoreNext(before, cap, first, Contents, x); }
        Contents := Contents + [x];
        TooMany(cells[..], cap, first, Contents);
      }
    }

    lemma TooMany(cells: seq<Cell<T>>, cap: nat, first: nat, q: seq<T>)
      ensures |q| > cap ==> !Holds(cells, cap, first, q)
    {
    }

    /** Copy the element, then store the cell's seq. */
    method Put(i: nat, x: T, stamp: nat)
      requires i < cells.Length
      modifies cells
      ensures cells[..] == old(cells[..])[i := Cell(stamp, x)]
    {
      cells[i] := cells[i].(data := x);
      cells[i] := cells[i].(stamp := stamp);
    }

    /** The claiming loop of pop. */
    method ClaimHead(spurious: nat) returns (ok: bool, h: nat, i: nat)
      requires Valid()
      modifies this`head
      ensures ok <==> Contents != []
      ensures i == Slot(first, cap)
      ensures h == old(head) && head == if ok then Wrap(h + 1) else h
    {
      hide Holds, GoodCap, And, Diff32;
      SeqTests(cells[..], cap, first, Contents);
      WrapAdd(first, 1);
      h := head;
      i := And(h, mask);
      var left := spurious;
      while true
        invariant h == head == old(head) && i == Slot(first, cap)
        decreases left
      {
        var diff := Diff32(cells[i].stamp, Wrap(h + 1));
        if diff == 0 {
          if left == 0 {
            head := Wrap(h + 1);
            return true, h, i;
          }
          left, h := left - 1, head;
          i := And(h, mask);
        } else if diff < 0 {
          return false, h, i;
        } else {
          h := head;
          assert false;
        }
      }
    }

    method Pop(spurious: nat) returns (r: Option<T>)
      requires Valid()
      modifies this, cells
      ensures Valid()
      ensures r == if old(Contents) == [] then None else Some(old(Contents)[0])
      ensures Contents == if r.None? then old(Contents) else old(Contents)[1..]
      ensures first == old(first) + |old(Contents)| - |Contents|
    {
      hide Holds, Slot, GoodCap;
      ghost var before := cells[..];
      var ok, h, i := ClaimHead(spurious);
      if !ok { return None; }
      var x := cells[i].data;
      Put(i, x, Wrap(h + cap));
      TakeFirst(before, cap, first, Contents);
      r := Some(x);
      Contents, first := Contents[1..], first + 1;
    }

    /** gmk_ring_mpmc_count is exact. */
    method Count() returns (n: nat)
      requires Valid()
      ensures n == |Contents|
    {
      n := Wrap(tail - head);
      CounterDistance(first + |Contents|, first);
    }
  }
}
