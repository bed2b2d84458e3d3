/** The channel entries of src/chan.c: a growing table of rings and subscriber lists. */
module ChannelTable {
  import opened Words
  import opened Tasks
  import opened MpmcProtocol
  import opened MpmcRing
  import opened Options
  import opened Channels

  /** gmk_chan_entry_t.  sys.direct, never open, has capacity 0 and does not use its ring. */
  class Entry {
    const mode: Mode
    const lossless: bool
    const cap: nat
    const ring: Ring<Task>
    var open: bool
    var subs: seq<Sub>

    ghost function Frame(): set<object> {
      {this, ring, ring.cells}
    }

    ghost predicate Valid()
      reads Frame()
    {
      ring.Valid() && (cap == ring.cap || (cap == 0 && !open && ring.Contents == []))
    }

    ghost function Value(): Chan
      reads Frame()
    {
      Chan(mode, lossless, cap, ring.Contents, subs, open)
    }

    constructor (mode: Mode, lossless: bool, cap: nat, open: bool, ring: Ring<Task>)
      requires ring.Valid() && ring.Contents == [] && (cap == ring.cap || (cap == 0 && !open))
      ensures Valid() && Value() == Chan(mode, lossless, cap, [], [], open) && this.ring == ring
    {
      hide Holds;
      this.mode, this.lossless, this.cap, this.open, this.ring, subs := mode, lossless, cap, open, ring, [];
    }
  }

  class Table {
    var entries: seq<Entry>

    ghost var repr: set<object>

    /** The entries do not share memory. */
    ghost predicate Shape()
      reads this
    {
      && this !in repr && (forall c :: 0 <= c < |entries| ==> entries[c].Frame() <= repr)
      && forall b, c :: 0 <= b < c < |entries| ==>
        entries[b] != entries[c] && entries[b].ring != entries[c].ring && entries[b].ring.cells != entries[c].ring.cells
    }

    ghost predicate Valid()
      reads this, repr
    {
      Shape() && forall c :: 0 <= c < |entries| ==> entries[c].Valid()
    }

    ghost function Chans(): (r: seq<Chan>)
      requires Valid()
      reads this, repr
      ensures |r| == |entries| && forall c :: 0 <= c < |entries| ==> r[c] == entries[c].Value()
    {
      var es, r := entries, repr;
      seq(|es|, c requires 0 <= c < |es| && es[c].Frame() <= r reads r => es[c].Value())
    }

    constructor ()
      ensures Valid() && fresh(repr) && entries == [] && Chans() == []
    {
      entries, repr := [], {};
    }

    /** A new entry at the end, with a ring of the given number of slots when it is open. */
    method Add(mode: Mode, lossless: bool, cap: nat, open: bool)
      requires Valid() && if open then GoodCap(cap) else cap == 0
      modifies this
      ensures Valid() && fresh(repr - old(repr)) && old(repr) <= repr && old(entries) < entries
      ensures Chans() == old(Chans()) + [Chan(mode, lossless, cap, [], [], open)]
    {
      hide Holds, Slot, GoodCap;
      TwoSlots();
      var ring := new Ring<Task>(if open then cap else 2);
      var e := new Entry(mode, lossless, cap, open, ring);
      assert e.Frame() !! repr;
      ghost var before := Chans();
      entries, repr := entries + [e], repr + e.Frame();
      assert forall c :: 0 <= c < |before| ==> Chans()[c] == before[c];
    }

    lemma TwoSlots()
      ensures GoodCap(2)
    {
      assert And(2, 1) == 0;
    }

    /** gmk_ring_mpmc_push on channel c's ring. */
    method PushRing(c: nat, t: Task) returns (ok: bool)
      requires Valid() && c < |entries| && entries[c].open
      requires Chans()[c].cap == 1 ==> Chans()[c].ring == []
      modifies repr
      ensures Valid() && entries == old(entries) && repr == old(repr)
      ensures ok == (|old(Chans())[c].ring| < old(Chans())[c].cap)
      ensures Chans() == if ok then old(Chans())[c := old(Chans())[c].(ring := old(Chans())[c].ring + [t])] else old(Chans())
    {
      hide Holds, Slot;
      assert entries[c].Valid();
      var spurious: nat := *;
      ok := entries[c].ring.Push(t, spurious);
    }

    /** gmk_ring_mpmc_pop on channel c's ring. */
    method PopRing(c: nat) returns (r: Option<Task>)
      requires Valid() && c < |entries|
      modifies repr
      ensures Valid() && entries == old(entries) && repr == old(repr)
      ensures r == if old(Chans())[c].ring == [] then None else Some(old(Chans())[c].ring[0])
      ensures Chans() == if r.Some? then old(Chans())[c := old(Chans())[c].(ring := old(Chans())[c].ring[1..])] else old(Chans())
    {
      hide Holds, Slot;
      assert entries[c].Valid();
      var spurious: nat := *;
      r := entries[c].ring.Pop(spurious);
    }

    /** gmk_ring_mpmc_count on channel c's ring. */
    method Count(c: nat) returns (n: nat)
      requires Valid() && c < |entries|
      ensures n == |Chans()[c].ring|
    {
      hide Holds, Slot;
      assert entries[c].Valid();
      n := entries[c].ring.Count();
    }

    method Close(c: nat)
      requires Valid() && c < |entries|
      modifies repr
      ensures Valid() && entries == old(entries) && repr == old(repr)
      ensures Chans() == old(Chans())[c := old(Chans())[c].(open := false)]
    {
      hide Holds, Slot;
      assert entries[c].Valid();
      entries[c].open := false;
    }

    method AddSub(c: nat, sub: Sub)
      requires Valid() && c < |entries|
      modifies repr
      ensures Valid() && entries == old(entries) && repr == old(repr)
      ensures Chans() == old(Chans())[c := old(Chans())[c].(subs := old(Chans())[c].subs + [sub])]
    {
      hide Holds, Slot;
      assert entries[c].Valid();
      entries[c].subs := entries[c].subs + [sub];
    }
  }
}
