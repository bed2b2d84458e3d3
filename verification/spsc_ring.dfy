/** The SPSC ring of src/ring_spsc.c used one call at a time: a bounded FIFO for every power-of-two cap. */
module SpscRing {
  import opened Words
  import opened MpmcProtocol
  import opened MpmcRing
  import opened Options

  ghost predicate Stores<T>(buf: seq<T>, cap: nat, first: nat, q: seq<T>) {
    && GoodCap(cap) && |buf| == cap && |q| <= cap
    && forall p :: first <= p < first + |q| ==> buf[Slot(p, cap)] == q[p - first]
  }

  lemma StoreLast<T>(buf: seq<T>, cap: nat, first: nat, q: seq<T>, x: T)
    requires Stores(buf, cap, first, q) && |q| < cap
    ensures Stores(buf[Slot(first + |q|, cap) := x], cap, first, q + [x])
  {
    forall r: nat | first <= r < first + |q| ensures Slot(r, cap) != Slot(first + |q|, cap) { LapDistinct(r, first + |q|, cap); }
  }

  class LocalRing<T(0)> {
    const cap: nat
    const mask: nat
    const buf: array<T>
    var head: nat  // 32-bit words
    var tail: nat

    ghost var Contents: seq<T>
    ghost var first: nat

    ghost predicate Valid()
      reads this, buf
    {
      && GoodCap(cap) && mask == cap - 1 && buf.Length == cap && |Contents| <= cap
      && Stores(buf[..], cap, first, Contents)
      && head == Wrap(first) && tail == Wrap(first + |Contents|)
    }

    constructor (slots: nat)
      requires GoodCap(slots)
      ensures cap == slots && fresh(buf) && Contents == [] && Valid()
    {
      cap, mask := slots, slots - 1;
      buf := new T[slots];
      head, tail := 0, 0;
      Contents, first := [], 0;
    }

    method Push(x: T) returns (ok: bool)
      requires Valid()
      modifies this, buf
      ensures Valid()
      ensures ok <==> |old(Contents)| < cap
      ensures Contents == if ok then old(Contents) + [x] else old(Contents)
      ensures first == old(first)
    {
      hide Stores;
      ghost var p := first + |Contents|;
      CounterDistance(p, first);
      if Wrap(tail - head) >= cap { return false; }
      var i := And(tail, mask);
      StoreLast(buf[..], cap, first, Contents, x);
      WrapAdd(p, 1);
      assert i == Slot(p, cap);
      buf[i] := x;
      assert buf[..] == old(buf[..])[i := x];
      tail := Wrap(tail + 1);
      Contents := Contents + [x];
      return true;
    }

    method Pop() returns (r: Option<T>)
      requires Valid()
      modifies this
      ensures Valid()
      ensures r == if old(Contents) == [] then None else Some(old(Contents)[0])
      ensures Contents == if r.None? then old(Contents) else old(Contents)[1..]
      ensures first == old(first) + |old(Contents)| - |Contents|
    {
      if head == tail {
        WrapInjective(first + |Contents|, first);
        return None;
      }
      var i := And(head, mask);
      assert i == Slot(first, cap);
      r := Some(buf[i]);
      WrapAdd(first, 1);
      head := Wrap(head + 1);
      Contents, first := Contents[1..], first + 1;
    }

    method Count() returns (n: nat)
      requires Valid()
      ensures n == |Contents|
    {
      n := Wrap(tail - head);
      CounterDistance(first + |Contents|, first);
    }
  }
}
