/**
 The split virtqueue of the virtio block driver: the initial descriptor chain
 (drivers/virtio/virtio_pci.c) and one polled request (drivers/virtio/virtio_blk.c).
 */
module Virtqueue {
  import opened FreeChain

  const END: int := 0xFFFF
  const F_NEXT: nat := 1
  const F_WRITE: nat := 2
  const T_IN: nat := 0     // read
  const STATUS_OK: nat := 0

  datatype Desc = Desc(addr: nat, len: nat, flags: nat, link: int)

  /** `header`, `data` and `status` are the physical addresses of the driver's three buffers. */
  datatype Vq = Vq(
    num: nat, desc: seq<Desc>, freeHead: int, numFree: int,
    avail: seq<int>, availIdx: nat, lastUsed: nat,
    header: nat, data: nat, status: nat)

  datatype Outcome = NoDescriptors | TimedOut | DeviceError | Done

  function Links(desc: seq<Desc>): seq<int> {
    seq(|desc|, i requires 0 <= i < |desc| => desc[i].link)
  }

  /** virtio_pci_setup_queue: descriptors linked in order, the last one ending the chain. */
  function Setup(num: nat, header: nat, data: nat, status: nat): Vq {
    Vq(num, seq(num, i => Desc(0, 0, 0, if i + 1 < num then i + 1 else END)), 0, num,
       seq(num, _ => 0), 0, 0, header, data, status)
  }

  function SetDesc(q: Vq, i: int, d: Desc): Vq
    requires 0 <= i < |q.desc|
  {
    q.(desc := q.desc[i := d])
  }

  /** Three linked descriptors can be taken from the front of the free chain. */
  predicate CanTake(q: Vq) {
    && |q.desc| == q.num == |q.avail|
    && 0 <= q.freeHead < q.num
    && 0 <= q.desc[q.freeHead].link < q.num
    && 0 <= q.desc[q.desc[q.freeHead].link].link < q.num
  }

  function D0(q: Vq): int { q.freeHead }
  function D1(q: Vq): int requires CanTake(q) { q.desc[D0(q)].link }
  function D2(q: Vq): int requires CanTake(q) { q.desc[D1(q)].link }

  /** Fill the three descriptors and put the head into the available ring. */
  function Publish(q: Vq, kind: nat): Vq
    requires CanTake(q)
  {
    var d0, d1, d2 := D0(q), D1(q), D2(q);
    var q1 := q.(freeHead := q.desc[d2].link, numFree := q.numFree - 3);
    var q2 := SetDesc(q1, d0, Desc(q.header, 16, F_NEXT, d1));
    var q3 := SetDesc(q2, d1, Desc(q.data, 512, if kind == T_IN then F_NEXT + F_WRITE else F_NEXT, d2));
    var q4 := SetDesc(q3, d2, Desc(q.status, 1, F_WRITE, 0));
    q4.(avail := q.avail[q.availIdx % q.num := d0], availIdx := (q.availIdx + 1) % 0x1_0000)
  }

  function Relink(q: Vq, i: int, link: int): Vq
    requires 0 <= i < |q.desc|
  {
    SetDesc(q, i, q.desc[i].(link := link))
  }

  /** Put the three descriptors back in front of the free chain. */
  function GiveBack(q: Vq, d0: int, d1: int, d2: int): Vq
    requires 0 <= d0 < |q.desc| && 0 <= d1 < |q.desc| && 0 <= d2 < |q.desc|
  {
    var q1 := Relink(Relink(Relink(q, d2, q.freeHead), d1, d2), d0, d1);
    q1.(freeHead := d0, numFree := q.numFree + 3, lastUsed := (q.lastUsed + 1) % 0x1_0000)
  }

  /** virtio_blk_do_io; `used` is the used index seen when polling stops, `status` the status byte then. */
  function DoIo(q: Vq, kind: nat, used: nat, status: nat): (Vq, Outcome) {
    if q.numFree < 3 || !CanTake(q) then (q, NoDescriptors)
    else
      var p := Publish(q, kind);
      if used == p.lastUsed then (p, TimedOut)
      else (GiveBack(p, D0(q), D1(q), D2(q)), if status == STATUS_OK then Done else DeviceError)
  }

  // ---- invariant --------------------------------------------------------------------

  /** `chain` is the free chain; `lost` are the descriptors of requests that timed out. */
  ghost predicate VqInv(q: Vq, chain: seq<int>, lost: set<nat>) {
    && 0 < q.num <= END && |q.desc| == q.num == |q.avail|
    && Chain(Links(q.desc), q.freeHead, END, chain)
    && |chain| == q.numFree
    && (forall i: nat :: i < q.num ==> (i in lost <==> i !in chain))
    && (forall i :: i in lost ==> i < q.num)
  }

  lemma SetupInv(num: nat, header: nat, data: nat, status: nat)
    requires 0 < num <= END
    ensures VqInv(Setup(num, header, data, status), Count(num), {})
  {
    var c := Count(num);
    forall i: nat | i < num ensures i in c { assert c[i] == i; }
  }

  /** Free and lost descriptors add up to the queue size. */
  lemma FreeAndLost(q: Vq, chain: seq<int>, lost: set<nat>)
    requires VqInv(q, chain, lost)
    ensures q.numFree + |lost| == q.num
  {
    forall i | i in chain ensures 0 <= i < q.num { var k :| 0 <= k < |chain| && chain[k] == i; }
    ChainPartition(q.num, chain, lost);
  }

  /** With at least three free descriptors the driver takes the first three of the chain. */
  lemma TakesFront(q: Vq, chain: seq<int>, lost: set<nat>)
    requires VqInv(q, chain, lost) && q.numFree >= 3
    ensures CanTake(q) && D0(q) == chain[0] && D1(q) == chain[1] && D2(q) == chain[2]
    ensures q.desc[D2(q)].link == After(chain, 2, END)
  {
    assert Links(q.desc)[chain[0]] == After(chain, 0, END) && Links(q.desc)[chain[1]] == After(chain, 1, END);
    assert Links(q.desc)[chain[2]] == After(chain, 2, END);
  }

  ghost function Front(chain: seq<int>): set<nat>
    requires |chain| >= 3 && chain[0] >= 0 && chain[1] >= 0 && chain[2] >= 0
  {
    {chain[0] as nat, chain[1] as nat, chain[2] as nat}
  }

  lemma DropThree(next: seq<int>, head: int, chain: seq<int>)
    requires Chain(next, head, END, chain) && |chain| >= 3
    ensures Chain(next, After(chain, 2, END), END, chain[3..])
    ensures chain[0] !in chain[3..] && chain[1] !in chain[3..] && chain[2] !in chain[3..]
  {
    var rest := chain[3..];
    assert forall k :: 0 <= k < |rest| ==> rest[k] == chain[k + 3];
  }

  lemma PublishFields(q: Vq, kind: nat)
    requires CanTake(q) && |q.avail| == q.num
    ensures var p := Publish(q, kind);
      && p.num == q.num && p.numFree == q.numFree - 3 && p.freeHead == q.desc[D2(q)].link
      && |p.desc| == |q.desc| && |p.avail| == q.num
      && forall i :: 0 <= i < |q.desc| && i != D0(q) && i != D1(q) && i != D2(q) ==> p.desc[i] == q.desc[i]
  {
  }

  /** Publishing takes exactly the three front descriptors out of the free chain. */
  lemma PublishKeeps(q: Vq, chain: seq<int>, lost: set<nat>, kind: nat)
    requires VqInv(q, chain, lost) && q.numFree >= 3
    ensures CanTake(q) && VqInv(Publish(q, kind), chain[3..], lost + Front(chain))
  {
    hide Publish, D1, D2;
    TakesFront(q, chain, lost);
    DropThree(Links(q.desc), q.freeHead, chain);
    PublishFields(q, kind);
    var p := Publish(q, kind);
    forall i | i in chain[3..] ensures 0 <= i < q.num && Links(p.desc)[i] == Links(q.desc)[i] { assert i in chain; }
    ChainFrame(Links(q.desc), Links(p.desc), After(chain, 2, END), END, chain[3..]);
    FrontLost(q.num, chain, lost);
  }

  lemma FrontLost(num: nat, chain: seq<int>, lost: set<nat>)
    requires |chain| >= 3 && chain[0] >= 0 && chain[1] >= 0 && chain[2] >= 0
    requires chain[0] !in chain[3..] && chain[1] !in chain[3..] && chain[2] !in chain[3..]
    requires forall i: nat :: i < num ==> (i in lost <==> i !in chain)
    ensures forall i: nat :: i < num ==> (i in lost + Front(chain) <==> i !in chain[3..])
  {
    assert chain == [chain[0], chain[1], chain[2]] + chain[3..];
  }

  /**
   What the device finds: the published head starts a chain of exactly three descriptors (header,
   data, status; data writable for the device only on reads), none of them free or lost.
   */
  lemma DeviceSeesRequest(q: Vq, chain: seq<int>, lost: set<nat>, kind: nat)
    requires VqInv(q, chain, lost) && q.numFree >= 3
    ensures CanTake(q)
    ensures var p := Publish(q, kind); var h := p.avail[q.availIdx % q.num];
      && p.availIdx == (q.availIdx + 1) % 0x1_0000
      && 0 <= h < p.num && p.desc[h] == Desc(q.header, 16, F_NEXT, D1(q))
      && p.desc[D1(q)].addr == q.data && p.desc[D1(q)].link == D2(q)
      && p.desc[D1(q)].flags == (if kind == T_IN then F_NEXT + F_WRITE else F_NEXT)
      && p.desc[D2(q)].addr == q.status && p.desc[D2(q)].flags == F_WRITE
      && h !in chain[3..] && D1(q) !in chain[3..] && D2(q) !in chain[3..]
      && (forall i :: i in lost ==> i != h && i != D1(q) && i != D2(q))
  {
    hide Publish, Links;
    TakesFront(q, chain, lost);
    DropThree(Links(q.desc), q.freeHead, chain);
    assert chain[0] in chain && chain[1] in chain && chain[2] in chain;
    PublishedThree(q, kind);
  }

  /** The three descriptors as published. */
  lemma PublishedThree(q: Vq, kind: nat)
    requires CanTake(q) && |q.avail| == q.num && |q.desc| == q.num && D0(q) != D1(q) && D0(q) != D2(q) && D1(q) != D2(q)
    ensures var p := Publish(q, kind); var h := p.avail[q.availIdx % q.num];
      && |p.avail| == |p.desc| == p.num == q.num && h == D0(q)
      && p.availIdx == (q.availIdx + 1) % 0x1_0000
      && p.desc[D0(q)] == Desc(q.header, 16, F_NEXT, D1(q))
      && p.desc[D1(q)] == Desc(q.data, 512, if kind == T_IN then F_NEXT + F_WRITE else F_NEXT, D2(q))
      && p.desc[D2(q)] == Desc(q.status, 1, F_WRITE, 0)
  {
  }

  /** A completed request, good or bad, restores the free chain exactly. */
  lemma CompletionRestores(q: Vq, chain: seq<int>, lost: set<nat>, kind: nat)
    requires VqInv(q, chain, lost) && q.numFree >= 3
    ensures CanTake(q)
    ensures var r := GiveBack(Publish(q, kind), D0(q), D1(q), D2(q));
      VqInv(r, chain, lost) && Links(r.desc) == Links(q.desc) && r.freeHead == q.freeHead && r.numFree == q.numFree
  {
    TakesFront(q, chain, lost);
    var r := GiveBack(Publish(q, kind), D0(q), D1(q), D2(q));
    forall i | 0 <= i < q.num ensures r.desc[i].link == q.desc[i].link { }
    assert Links(r.desc) == Links(q.desc);
  }

  // ---- runs ---------------------------------------------------------------------------

  datatype Request = Request(kind: nat, used: nat, status: nat)

  function RunIo(q: Vq, rs: seq<Request>): Vq
    decreases |rs|
  {
    if rs == [] then q else RunIo(DoIo(q, rs[0].kind, rs[0].used, rs[0].status).0, rs[1..])
  }

  function Timeouts(q: Vq, rs: seq<Request>): nat
    decreases |rs|
  {
    if rs == [] then 0
    else
      var (q', o) := DoIo(q, rs[0].kind, rs[0].used, rs[0].status);
      (if o == TimedOut then 1 else 0) + Timeouts(q', rs[1..])
  }

  lemma DoIoKeeps(q: Vq, chain: seq<int>, lost: set<nat>, r: Request) returns (chain': seq<int>, lost': set<nat>)
    requires VqInv(q, chain, lost)
    ensures var (q', o) := DoIo(q, r.kind, r.used, r.status);
      && VqInv(q', chain', lost') && q'.num == q.num
      && (o == NoDescriptors <==> q.numFree < 3)
      && (o != TimedOut ==> chain' == chain && lost' == lost)
      && (o == TimedOut ==> |chain| >= 3 && chain' == chain[3..] && lost < lost' && |lost'| == |lost| + 3)
  {
    hide Publish, GiveBack;
    chain', lost' := chain, lost;
    if q.numFree >= 3 {
      PublishKeeps(q, chain, lost, r.kind);
      CompletionRestores(q, chain, lost, r.kind);
      PublishShape(q, r.kind);
      if DoIo(q, r.kind, r.used, r.status).1 == TimedOut {
        chain', lost' := chain[3..], lost + Front(chain);
        FreeAndLost(q, chain, lost);
        FreeAndLost(Publish(q, r.kind), chain', lost');
        assert chain[0] in chain;
      }
    }
  }

  /**
   What each outcome of a request means: refused without three free descriptors, timed out when the used
   index has not moved, and otherwise done or failed by the status byte, 0 for success.  A request that
   is not refused is made available once, and one that is answered is counted once.
   */
  ghost predicate OutcomeMeans(q: Vq, r: Request, q': Vq, o: Outcome) {
    var free, moved := q.numFree >= 3, r.used != q.lastUsed;
    && (o == NoDescriptors <==> !free)
    && (o == TimedOut <==> free && !moved)
    && (o == Done <==> free && moved && r.status == 0)
    && (o == DeviceError <==> free && moved && r.status != 0)
    && (!free ==> q' == q)
    && (free ==> q'.availIdx == (q.availIdx + 1) % 0x1_0000)
    && (free ==> q'.lastUsed == if moved then (q.lastUsed + 1) % 0x1_0000 else q.lastUsed)
  }

  lemma DoIoOutcome(q: Vq, chain: seq<int>, lost: set<nat>, r: Request)
    requires VqInv(q, chain, lost)
    ensures var (q', o) := DoIo(q, r.kind, r.used, r.status); OutcomeMeans(q, r, q', o)
  {
    hide Publish, GiveBack, VqInv;
    if q.numFree >= 3 {
      TakesFront(q, chain, lost);
      PublishShape(q, r.kind);
      PublishIndices(q, r.kind);
    }
  }

  lemma PublishIndices(q: Vq, kind: nat)
    requires CanTake(q)
    ensures var p := Publish(q, kind); p.availIdx == (q.availIdx + 1) % 0x1_0000 && p.lastUsed == q.lastUsed
    ensures var g := GiveBack(Publish(q, kind), D0(q), D1(q), D2(q));
      g.availIdx == (q.availIdx + 1) % 0x1_0000 && g.lastUsed == (q.lastUsed + 1) % 0x1_0000
  {
  }

  lemma PublishShape(q: Vq, kind: nat)
    requires CanTake(q)
    ensures var p := Publish(q, kind); p.num == q.num && p.numFree == q.numFree - 3 && p.lastUsed == q.lastUsed && |p.desc| == |q.desc|
    ensures GiveBack(Publish(q, kind), D0(q), D1(q), D2(q)).num == q.num
  {
  }

  /** Over any requests, device errors and timeouts: free descriptors plus three per timeout is the queue size. */
  lemma {:induction false} RunKeeps(q: Vq, chain: seq<int>, lost: set<nat>, rs: seq<Request>)
    returns (chain': seq<int>, lost': set<nat>)
    requires VqInv(q, chain, lost)
    ensures VqInv(RunIo(q, rs), chain', lost') && RunIo(q, rs).num == q.num
    ensures |lost'| == |lost| + 3 * Timeouts(q, rs)
    ensures RunIo(q, rs).numFree + |lost| + 3 * Timeouts(q, rs) == q.num
    decreases |rs|
  {
    hide DoIo;
    if rs == [] {
      chain', lost' := chain, lost;
      FreeAndLost(q, chain, lost);
    } else {
      chain', lost' := DoIoKeeps(q, chain, lost, rs[0]);
      chain', lost' := RunKeeps(DoIo(q, rs[0].kind, rs[0].used, rs[0].status).0, chain', lost', rs[1..]);
    }
  }

  /** From set-up on, every descriptor is free except three per timed-out request. */
  lemma DescriptorsAccountedFor(num: nat, header: nat, data: nat, status: nat, rs: seq<Request>)
    requires 0 < num <= END
    ensures var q := Setup(num, header, data, status); RunIo(q, rs).numFree + 3 * Timeouts(q, rs) == num
  {
    SetupInv(num, header, data, status);
    var _, _ := RunKeeps(Setup(num, header, data, status), Count(num), {}, rs);
  }

  // ---- the queue as the driver updates it -------------------------------------------------

  class BlockQueue {
    const num: nat
    const desc: array<Desc>
    const avail: array<int>
    var freeHead: int
    var numFree: int
    var availIdx: nat
    var lastUsed: nat
    const header: nat
    const data: nat
    const status: nat

    ghost var chain: seq<int>
    ghost var lost: set<nat>

    ghost function State(): Vq
      reads this, desc, avail
    {
      Vq(num, desc[..], freeHead, numFree, avail[..], availIdx, lastUsed, header, data, status)
    }

    ghost predicate Valid()
      reads this, desc, avail
    {
      VqInv(State(), chain, lost)
    }

    /** Each descriptor links to the next, the last one to the end marker. */
    static method LinkDescriptors(n: nat) returns (d: array<Desc>)
      requires 0 < n
      ensures fresh(d) && d[..] == seq(n, i => Desc(0, 0, 0, if i + 1 < n then i + 1 else END))
    {
      d := new Desc[n](_ => Desc(0, 0, 0, 0));
      for i := 0 to n - 1
        invariant forall k :: 0 <= k < i ==> d[k] == Desc(0, 0, 0, k + 1)
        invariant forall k :: i <= k < n ==> d[k] == Desc(0, 0, 0, 0)
      {
        d[i] := d[i].(link := i + 1);
      }
      d[n - 1] := d[n - 1].(link := END);
    }

    constructor (n: nat, headerPhys: nat, dataPhys: nat, statusPhys: nat)
      requires 0 < n <= END
      ensures Valid() && fresh(desc) && fresh(avail) && lost == {} && State() == Setup(n, headerPhys, dataPhys, statusPhys)
    {
      hide VqInv;
      SetupInv(n, headerPhys, dataPhys, statusPhys);
      var d := BlockQueue.LinkDescriptors(n);
      num, desc, avail := n, d, new int[n](_ => 0);
      freeHead, numFree, availIdx, lastUsed := 0, n, 0, 0;
      header, data, status := headerPhys, dataPhys, statusPhys;
      chain, lost := Count(n), {};
      new;
      assert avail[..] == seq(n, _ => 0);
    }

    /** Take three descriptors, fill them, and make the head available. */
    method PublishRequest(kind: nat) returns (d0: nat, d1: nat, d2: nat)
      requires CanTake(State()) && desc.Length == num && avail.Length == num
      modifies this`freeHead, this`numFree, this`availIdx, desc, avail
      ensures State() == Publish(old(State()), kind)
      ensures d0 == D0(old(State())) && d1 == D1(old(State())) && d2 == D2(old(State()))
    {
      d0 := freeHead;
      d1 := desc[d0].link;
      d2 := desc[d1].link;
      freeHead := desc[d2].link;
      numFree := numFree - 3;
      desc[d0] := Desc(header, 16, F_NEXT, d1);
      desc[d1] := Desc(data, 512, if kind == T_IN then F_NEXT + F_WRITE else F_NEXT, d2);
      desc[d2] := Desc(status, 1, F_WRITE, 0);
      avail[availIdx % num] := d0;
      availIdx := (availIdx + 1) % 0x1_0000;
    }

    /** Link the three descriptors back in front of the free chain. */
    method ReturnRequest(d0: nat, d1: nat, d2: nat)
      requires d0 < desc.Length && d1 < desc.Length && d2 < desc.Length
      modifies this`freeHead, this`numFree, this`lastUsed, desc
      ensures State() == GiveBack(old(State()), d0, d1, d2)
    {
      lastUsed := (lastUsed + 1) % 0x1_0000;
      desc[d2] := desc[d2].(link := freeHead);
      desc[d1] := desc[d1].(link := d2);
      desc[d0] := desc[d0].(link := d1);
      freeHead := d0;
      numFree := numFree + 3;
    }

    method Submit(kind: nat, used: nat, statusByte: nat) returns (o: Outcome)
      requires Valid()
      modifies this, desc, avail
      ensures Valid() && (State(), o) == DoIo(old(State()), kind, used, statusByte)
      ensures OutcomeMeans(old(State()), Request(kind, used, statusByte), State(), o)
      ensures o != TimedOut ==> chain == old(chain) && lost == old(lost)
      ensures o == TimedOut ==> |lost| == |old(lost)| + 3
    {
      hide VqInv, Publish, GiveBack, OutcomeMeans;
      QueueShape(State(), chain, lost);
      DoIoOutcome(State(), chain, lost, Request(kind, used, statusByte));
      ghost var chain', lost' := DoIoKeeps(State(), chain, lost, Request(kind, used, statusByte));
      if numFree < 3 { return NoDescriptors; }
      TakesFront(State(), chain, lost);
      PublishShape(State(), kind);
      var d0, d1, d2 := PublishRequest(kind);
      chain, lost := chain', lost';
      if used == lastUsed { return TimedOut; }
      ReturnRequest(d0, d1, d2);
      return if statusByte == STATUS_OK then Done else DeviceError;
    }

    lemma QueueShape(q: Vq, c: seq<int>, l: set<nat>)
      requires VqInv(q, c, l)
      ensures |q.desc| == q.num == |q.avail|
    {
    }
  }
}
