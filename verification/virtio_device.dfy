/**
 The block driver together with the device: which descriptors the device still owns, and when the
 driver's free chain stays clear of them (drivers/virtio/virtio_blk.c).
 */
module VirtioDevice {
  import opened FreeChain
  import opened Virtqueue

  const WRAP16: nat := 0x1_0000

  /** The three descriptors of one request. */
  datatype Job = Job(d0: int, d1: int, d2: int)

  /** The queue, the device's used index, and the requests the device has not finished yet. */
  datatype Rig = Rig(q: Vq, used: nat, out: seq<Job>)

  predicate In(x: int, j: Job) {
    x == j.d0 || x == j.d1 || x == j.d2
  }

  ghost predicate Owns(out: seq<Job>, x: int) {
    exists j :: j in out && In(x, j)
  }

  /** The descriptors that the next request takes. */
  function Own(q: Vq): Job
    requires CanTake(q)
  {
    Job(D0(q), D1(q), D2(q))
  }

  function Without(out: seq<Job>, k: nat): seq<Job>
    requires k < |out|
  {
    out[..k] + out[k + 1..]
  }

  /** The device finishes its k-th outstanding request, in any order it likes. */
  function Finish(r: Rig, k: nat): Rig {
    if k < |r.out| then r.(used := (r.used + 1) % WRAP16, out := Without(r.out, k)) else r
  }

  function Finishes(r: Rig, ks: seq<nat>): (r': Rig)
    ensures r'.q == r.q
    decreases |ks|
  {
    if ks == [] then r else Finishes(Finish(r, ks[0]), ks[1..])
  }

  /** The published request, before the device has done anything about it. */
  function Handed(r: Rig, kind: nat): Rig
    requires CanTake(r.q)
  {
    Rig(Publish(r.q, kind), r.used, r.out + [Own(r.q)])
  }

  /** One virtio_blk_do_io while which the device finishes the requests ks; `status` is the status byte read then. */
  function Call(r: Rig, kind: nat, ks: seq<nat>, status: nat): (Rig, Outcome) {
    if r.q.numFree < 3 || !CanTake(r.q) then (r, NoDescriptors)
    else
      var r2 := Finishes(Handed(r, kind), ks);
      var (q', o) := DoIo(r.q, kind, r2.used, status);
      (Rig(q', r2.used, r2.out), o)
  }

  datatype Event = DeviceDone(k: nat) | Submit(kind: nat, ks: seq<nat>, status: nat)

  function Exec(r: Rig, e: Event): Rig {
    match e
    case DeviceDone(k) => Finish(r, k)
    case Submit(kind, ks, status) => Call(r, kind, ks, status).0
  }

  // ---- ownership ----------------------------------------------------------------------

  /** No descriptor the device owns is on the free chain. */
  ghost predicate Safe(r: Rig) {
    forall chain, lost, x :: VqInv(r.q, chain, lost) && Owns(r.out, x) ==> x !in chain
  }

  /** What holds as long as the driver and the device do not share a descriptor; k requests have timed out. */
  ghost predicate RigInv(r: Rig, chain: seq<int>, lost: set<nat>, k: nat) {
    && VqInv(r.q, chain, lost) && |lost| == 3 * k && |r.out| <= k
    && r.q.availIdx == (r.q.lastUsed + k) % WRAP16 && r.q.availIdx == (r.used + |r.out|) % WRAP16
    && r.q.lastUsed < WRAP16 && r.used < WRAP16
    && (forall x :: Owns(r.out, x) ==> x !in chain)
  }

  lemma ChainIsUnique(q: Vq, a: seq<int>, la: set<nat>, b: seq<int>, lb: set<nat>)
    requires VqInv(q, a, la) && VqInv(q, b, lb)
    ensures a == b
  {
    ChainUnique(Links(q.desc), q.freeHead, END, a, b);
  }

  /** Safety can be read off any one chain. */
  lemma SafeByChain(r: Rig, chain: seq<int>, lost: set<nat>)
    requires VqInv(r.q, chain, lost)
    ensures Safe(r) <==> forall x :: Owns(r.out, x) ==> x !in chain
  {
    hide VqInv, Owns;
    forall c, l, x | VqInv(r.q, c, l) && Owns(r.out, x) ensures c == chain { ChainIsUnique(r.q, c, l, chain, lost); }
  }

  lemma WithoutOwns(out: seq<Job>, k: nat)
    requires k < |out|
    ensures |Without(out, k)| == |out| - 1
    ensures forall j :: j in Without(out, k) ==> j in out
    ensures forall x :: Owns(Without(out, k), x) ==> Owns(out, x)
  {
  }

  /** The indices advance together while the device works through its requests. */
  lemma FinishKeeps(r: Rig, k: nat)
    requires r.used < WRAP16
    ensures var r' := Finish(r, k);
      && r'.q == r.q && r'.used < WRAP16 && |r'.out| <= |r.out|
      && (r'.used + |r'.out|) % WRAP16 == (r.used + |r.out|) % WRAP16
      && (forall j :: j in r'.out ==> j in r.out) && (forall x :: Owns(r'.out, x) ==> Owns(r.out, x))
  {
    if k < |r.out| { WithoutOwns(r.out, k); }
  }

  lemma {:induction false} FinishesKeep(r: Rig, ks: seq<nat>)
    requires r.used < WRAP16
    ensures var r' := Finishes(r, ks);
      && r'.used < WRAP16 && |r'.out| <= |r.out|
      && (r'.used + |r'.out|) % WRAP16 == (r.used + |r.out|) % WRAP16
      && (forall j :: j in r'.out ==> j in r.out) && (forall x :: Owns(r'.out, x) ==> Owns(r.out, x))
    decreases |ks|
  {
    hide Finish, Owns;
    if ks != [] {
      FinishKeeps(r, ks[0]);
      FinishesKeep(Finish(r, ks[0]), ks[1..]);
    }
  }

  /** Free and timed-out descriptors leave no room for 2^16 timeouts. */
  lemma FewTimeouts(r: Rig, chain: seq<int>, lost: set<nat>, k: nat)
    requires RigInv(r, chain, lost, k)
    ensures k < 21846 && (r.q.availIdx == r.q.lastUsed <==> k == 0) && r.q.num - r.q.numFree == 3 * k
  {
    FreeAndLost(r.q, chain, lost);
  }

  lemma DeviceKeeps(r: Rig, chain: seq<int>, lost: set<nat>, k: nat, i: nat)
    requires RigInv(r, chain, lost, k)
    ensures RigInv(Finish(r, i), chain, lost, k)
  {
    hide VqInv, Owns;
    FinishKeeps(r, i);
  }

  lemma OwnsMore(out: seq<Job>, j: Job)
    ensures forall x :: Owns(out + [j], x) <==> Owns(out, x) || In(x, j)
  {
    forall x ensures Owns(out + [j], x) <==> Owns(out, x) || In(x, j) {
      if Owns(out, x) { var i :| i in out && In(x, i); assert i in out + [j]; }
      if In(x, j) { assert j in out + [j]; }
    }
  }

  /** The new request takes three descriptors off the chain, so the device owned none of them before. */
  lemma OwnOnChain(r: Rig, chain: seq<int>, lost: set<nat>, k: nat)
    requires RigInv(r, chain, lost, k) && r.q.numFree >= 3
    ensures CanTake(r.q) && |chain| >= 3 && Own(r.q) !in r.out
    ensures forall x :: In(x, Own(r.q)) ==> x in chain && x !in chain[3..]
  {
    hide Owns;
    TakesFront(r.q, chain, lost);
    DropThree(Links(r.q.desc), r.q.freeHead, chain);
    if Own(r.q) in r.out { assert Owns(r.out, D0(r.q)) by { InOwns(r.out, Own(r.q), D0(r.q)); } }
  }

  lemma InOwns(out: seq<Job>, j: Job, x: int)
    requires j in out && In(x, j)
    ensures Owns(out, x)
  {
  }

  /** What a call that was not refused does to the indices and to the device's list. */
  lemma CallShape(r: Rig, kind: nat, ks: seq<nat>, status: nat)
    requires CanTake(r.q) && r.q.numFree >= 3
    ensures var (r', o) := Call(r, kind, ks, status); var r2 := Finishes(Handed(r, kind), ks);
      && (r'.q, o) == DoIo(r.q, kind, r2.used, status) && r'.used == r2.used && r'.out == r2.out
      && o != NoDescriptors && (o == TimedOut <==> r2.used == r.q.lastUsed)
      && r'.q.availIdx == (r.q.availIdx + 1) % WRAP16
      && r'.q.lastUsed == (if o == TimedOut then r.q.lastUsed else (r.q.lastUsed + 1) % WRAP16)
  {
    hide Publish, GiveBack, Finishes;
    PublishIndices(r.q, kind);
  }

  lemma NextIndex(a: nat, b: nat)
    requires a < WRAP16 && a == b % WRAP16
    ensures (a + 1) % WRAP16 == (b + 1) % WRAP16
  {
  }

  /** After a call in which nothing came to be shared, the books are in order again. */
  lemma CallKeeps(r: Rig, chain: seq<int>, lost: set<nat>, k: nat, kind: nat, ks: seq<nat>, status: nat,
                  chain': seq<int>, lost': set<nat>)
    requires RigInv(r, chain, lost, k) && r.q.numFree >= 3 && CanTake(r.q)
    requires var (r', o) := Call(r, kind, ks, status);
      && VqInv(r'.q, chain', lost') && |lost'| == |lost| + (if o == TimedOut then 3 else 0)
      && (o != TimedOut ==> Own(r.q) !in r'.out) && forall x :: Owns(r'.out, x) ==> x !in chain'
    ensures var (r', o) := Call(r, kind, ks, status); RigInv(r', chain', lost', if o == TimedOut then k + 1 else k)
  {
    hide VqInv, Owns, Call, Finishes, DoIo, Publish;
    CallShape(r, kind, ks, status);
    var (r', o) := Call(r, kind, ks, status);
    var r1 := Handed(r, kind);
    FinishesKeep(r1, ks);
    if o != TimedOut { ShorterByOwn(Own(r.q), r1, ks); }
    Indices(r.q.availIdx, r.q.lastUsed, k);
    NextIndex(r.q.availIdx, r.used + |r.out|);
    hide Finish, Handed, RigInv;
    MakeInv(r', chain', lost', if o == TimedOut then k + 1 else k);
  }

  lemma MakeInv(r: Rig, chain: seq<int>, lost: set<nat>, k: nat)
    requires VqInv(r.q, chain, lost) && |lost| == 3 * k && |r.out| <= k
    requires r.q.availIdx == (r.q.lastUsed + k) % WRAP16 && r.q.availIdx == (r.used + |r.out|) % WRAP16
    requires r.q.lastUsed < WRAP16 && r.used < WRAP16 && forall x :: Owns(r.out, x) ==> x !in chain
    ensures RigInv(r, chain, lost, k)
  {
    hide VqInv, Owns;
  }

  lemma Indices(avail: nat, last: nat, k: nat)
    requires avail == (last + k) % WRAP16
    ensures (avail + 1) % WRAP16 == (last + (k + 1)) % WRAP16
    ensures (avail + 1) % WRAP16 == ((last + 1) % WRAP16 + k) % WRAP16
  {
    AddMod(last + k, 1);
    AddMod(last + 1, k);
  }

  lemma AddMod(a: nat, b: nat)
    ensures (a % WRAP16 + b) % WRAP16 == (a + b) % WRAP16
  {
    var q := a / WRAP16;
    assert a + b == q * WRAP16 + (a % WRAP16 + b);
  }

  /**
   One call, whatever the device does meanwhile.  A call that times out, or is refused, shares nothing
   with the device; one that was answered shares nothing exactly when its own request is finished.
   */
  lemma CallExact(r: Rig, chain: seq<int>, lost: set<nat>, k: nat, kind: nat, ks: seq<nat>, status: nat)
    returns (chain': seq<int>, lost': set<nat>, k': nat)
    requires RigInv(r, chain, lost, k)
    ensures var (r', o) := Call(r, kind, ks, status);
      && (o == NoDescriptors <==> r.q.numFree < 3)
      && (o == TimedOut <==> r.q.numFree >= 3 && r'.used == r.q.lastUsed)
      && (o == Done <==> r.q.numFree >= 3 && r'.used != r.q.lastUsed && status == 0)
      && (Safe(r') <==> Answered(r, r', o))
      && (Answered(r, r', o) ==> RigInv(r', chain', lost', k') && k' == (if o == TimedOut then k + 1 else k))
  {
    hide VqInv, Owns, Finishes, In, Safe;
    chain', lost', k' := chain, lost, k;
    var (r', o) := Call(r, kind, ks, status);
    if r.q.numFree < 3 {
      SafeByChain(r, chain, lost);
    } else {
      OwnOnChain(r, chain, lost, k);
      CallShape(r, kind, ks, status);
      var r2 := Finishes(Handed(r, kind), ks);
      chain', lost' := DoIoKeeps(r.q, chain, lost, Request(kind, r2.used, status));
      DoIoOutcome(r.q, chain, lost, Request(kind, r2.used, status));
      hide Call, DoIo;
      k' := if o == TimedOut then k + 1 else k;
      SafeByChain(r', chain', lost');
      CallOwns(r, chain, lost, k, kind, ks, status);
      if Answered(r, r', o) { CallKeeps(r, chain, lost, k, kind, ks, status, chain', lost'); }
    }
  }

  /** What the device owns after a call lies off the part of the chain that the call left. */
  lemma CallOwns(r: Rig, chain: seq<int>, lost: set<nat>, k: nat, kind: nat, ks: seq<nat>, status: nat)
    requires RigInv(r, chain, lost, k) && r.q.numFree >= 3
    ensures CanTake(r.q) && |chain| >= 3
    ensures var r' := Call(r, kind, ks, status).0;
      && (forall x :: Owns(r'.out, x) ==> x !in chain[3..])
      && ((exists x :: Owns(r'.out, x) && x in chain) <==> Own(r.q) in r'.out)
  {
    hide VqInv, Owns, Finishes, In;
    OwnOnChain(r, chain, lost, k);
    CallShape(r, kind, ks, status);
    hide Call;
    var r' := Call(r, kind, ks, status).0;
    OwnsMore(r.out, Own(r.q));
    FinishesKeep(Handed(r, kind), ks);
    assert forall y :: y in chain[3..] ==> y in chain;
    if Own(r.q) in r'.out { SharedWithDevice(r'.out, Own(r.q), chain); } else { OthersOnly(r.out, Own(r.q), r'.out); }
  }

  /** The call was refused or timed out, or its own request is among those the device has finished. */
  predicate Answered(r: Rig, r': Rig, o: Outcome) {
    o == NoDescriptors || o == TimedOut || (CanTake(r.q) && Own(r.q) !in r'.out)
  }

  lemma SharedWithDevice(out: seq<Job>, j: Job, chain: seq<int>)
    requires j in out && forall x :: In(x, j) ==> x in chain
    ensures exists x :: Owns(out, x) && x in chain
  {
    InOwns(out, j, j.d0);
  }

  lemma OthersOnly(out: seq<Job>, j: Job, out': seq<Job>)
    requires j !in out' && forall i :: i in out' ==> i in out + [j]
    ensures forall x :: Owns(out', x) ==> Owns(out, x)
  {
    forall x | Owns(out', x) ensures Owns(out, x) { var i :| i in out' && In(x, i); assert i in out; }
  }

  /** Finishing a request makes the list shorter. */
  lemma {:induction false} ShorterByOwn(j: Job, r: Rig, ks: seq<nat>)
    requires j in r.out && j !in Finishes(r, ks).out && r.used < WRAP16
    ensures |Finishes(r, ks).out| < |r.out|
    decreases |ks|
  {
    hide Owns;
    var r2 := Finish(r, ks[0]);
    FinishKeeps(r, ks[0]);
    FinishesKeep(r2, ks[1..]);
    if ks[0] >= |r.out| { ShorterByOwn(j, r2, ks[1..]); }
  }

  // ---- before the call: when is it safe whatever the device does -------------------------

  /** With no timeout so far the device owes nothing, so a call can only be answered for its own request. */
  lemma NoTimeoutSafe(r: Rig, chain: seq<int>, lost: set<nat>, k: nat, kind: nat, ks: seq<nat>, status: nat)
    requires RigInv(r, chain, lost, k) && r.q.availIdx == r.q.lastUsed
    ensures var (r', o) := Call(r, kind, ks, status); Answered(r, r', o)
  {
    hide VqInv, Owns, Finishes, In;
    FewTimeouts(r, chain, lost, k);
    if r.q.numFree >= 3 {
      OwnOnChain(r, chain, lost, k);
      CallShape(r, kind, ks, status);
      NothingOwed(r, chain, lost);
      hide Call, DoIo, RigInv;
      AloneFinish(Handed(r, kind), Own(r.q), ks);
    }
  }

  lemma NothingOwed(r: Rig, chain: seq<int>, lost: set<nat>)
    requires RigInv(r, chain, lost, 0)
    ensures r.out == [] && r.used == r.q.lastUsed < WRAP16
  {
    hide VqInv, Owns;
  }

  /** While the device has not finished its only request, its index has not moved. */
  lemma AloneFinish(r: Rig, j: Job, ks: seq<nat>)
    requires r.out == [j] && r.used < WRAP16
    ensures j in Finishes(r, ks).out ==> Finishes(r, ks).used == r.used
  {
    hide Owns, Finishes;
    FinishesKeep(r, ks);
    var r2 := Finishes(r, ks);
    if j in r2.out { SameIndex(r.used, r2.used); }
  }

  lemma SameIndex(a: nat, b: nat)
    requires a < WRAP16 && b < WRAP16 && (a + 1) % WRAP16 == (b + 1) % WRAP16
    ensures a == b
  {
  }

  /** After a timeout the device can make the next call share descriptors with it. */
  lemma LaterCallFails(r: Rig, chain: seq<int>, lost: set<nat>, k: nat, kind: nat, status: nat) returns (ks: seq<nat>)
    requires RigInv(r, chain, lost, k) && r.q.numFree >= 3 && r.q.availIdx != r.q.lastUsed
    ensures var (r', o) := Call(r, kind, ks, status); !Answered(r, r', o)
    ensures ks == if r.used != r.q.lastUsed then [] else [0]
  {
    hide VqInv, Owns, In, Publish, DoIo, Call;
    FewTimeouts(r, chain, lost, k);
    OwnOnChain(r, chain, lost, k);
    var r1 := Handed(r, kind);
    if r.used != r.q.lastUsed {
      ks := [];
      assert Finishes(r1, ks) == r1;
    } else {
      ks := [0];
      assert |r.out| > 0;
      assert Finishes(r1, ks) == Finish(r1, 0) by { assert ks[1..] == []; }
      assert Without(r1.out, 0) == r.out[1..] + [Own(r.q)];
    }
    CallShape(r, kind, ks, status);
  }

  /**
   Before a call that will not be refused: it is safe whatever the device does if and only if
   avail.idx == last_used_idx, that is, if and only if no request has timed out so far.
   */
  lemma CallSafeIff(r: Rig, chain: seq<int>, lost: set<nat>, k: nat)
    requires RigInv(r, chain, lost, k) && r.q.numFree >= 3
    ensures (forall kind, ks, status :: Safe(Call(r, kind, ks, status).0)) <==> r.q.availIdx == r.q.lastUsed
    ensures r.q.availIdx == r.q.lastUsed <==> lost == {}
  {
    hide VqInv, Owns, Safe, Call, Answered;
    EmptyLost(r, chain, lost, k);
    if r.q.availIdx == r.q.lastUsed {
      forall kind, ks, status ensures Safe(Call(r, kind, ks, status).0) {
        NoTimeoutSafe(r, chain, lost, k, kind, ks, status);
        var _, _, _ := CallExact(r, chain, lost, k, kind, ks, status);
      }
    } else {
      var ks := LaterCallFails(r, chain, lost, k, T_IN, STATUS_OK);
      var _, _, _ := CallExact(r, chain, lost, k, T_IN, ks, STATUS_OK);
      assert !Safe(Call(r, T_IN, ks, STATUS_OK).0);
    }
  }

  lemma EmptyLost(r: Rig, chain: seq<int>, lost: set<nat>, k: nat)
    requires RigInv(r, chain, lost, k)
    ensures r.q.availIdx == r.q.lastUsed <==> lost == {}
  {
    FewTimeouts(r, chain, lost, k);
  }

  // ---- whole runs -------------------------------------------------------------------------

  function ExecAll(r: Rig, es: seq<Event>): Rig
    decreases |es|
  {
    if es == [] then r else ExecAll(Exec(r, es[0]), es[1..])
  }

  /** Driver and device share no descriptor in any state of the run. */
  ghost predicate AllSafe(r: Rig, es: seq<Event>)
    decreases |es|
  {
    Safe(r) && (es != [] ==> AllSafe(Exec(r, es[0]), es[1..]))
  }

  predicate EventAnswered(r: Rig, e: Event) {
    e.Submit? ==> var (r', o) := Call(r, e.kind, e.ks, e.status); Answered(r, r', o)
  }

  /** Every call that returned an answer returned after the device had finished that very request. */
  predicate AllAnswered(r: Rig, es: seq<Event>)
    decreases |es|
  {
    es != [] ==> EventAnswered(r, es[0]) && AllAnswered(Exec(r, es[0]), es[1..])
  }

  /** Requests are submitted only while avail.idx == last_used_idx. */
  predicate Careful(r: Rig, es: seq<Event>)
    decreases |es|
  {
    es != [] ==> (es[0].Submit? && r.q.numFree >= 3 ==> r.q.availIdx == r.q.lastUsed) && Careful(Exec(r, es[0]), es[1..])
  }

  lemma EventExact(r: Rig, chain: seq<int>, lost: set<nat>, k: nat, e: Event) returns (chain': seq<int>, lost': set<nat>, k': nat)
    requires RigInv(r, chain, lost, k)
    ensures Safe(Exec(r, e)) <==> EventAnswered(r, e)
    ensures EventAnswered(r, e) ==> RigInv(Exec(r, e), chain', lost', k')
  {
    hide VqInv, Owns, Safe, Call, Answered, Finish;
    chain', lost', k' := chain, lost, k;
    match e {
      case DeviceDone(i) =>
        DeviceKeeps(r, chain, lost, k, i);
        SafeByChain(Finish(r, i), chain, lost);
      case Submit(kind, ks, status) =>
        chain', lost', k' := CallExact(r, chain, lost, k, kind, ks, status);
    }
  }

  /** A run is safe throughout if and only if every answered call was answered for its own request. */
  lemma {:induction false} RunSafeIff(r: Rig, chain: seq<int>, lost: set<nat>, k: nat, es: seq<Event>)
    requires RigInv(r, chain, lost, k)
    ensures AllSafe(r, es) <==> AllAnswered(r, es)
    decreases |es|
  {
    hide RigInv, Safe, Exec, EventAnswered;
    InvIsSafe(r, chain, lost, k);
    if es != [] {
      var c, l, n := EventExact(r, chain, lost, k, es[0]);
      if EventAnswered(r, es[0]) { RunSafeIff(Exec(r, es[0]), c, l, n, es[1..]); }
      else { NotSafeHere(Exec(r, es[0]), es[1..]); }
    }
  }

  lemma NotSafeHere(r: Rig, es: seq<Event>)
    requires !Safe(r)
    ensures !AllSafe(r, es)
  {
  }

  lemma InvIsSafe(r: Rig, chain: seq<int>, lost: set<nat>, k: nat)
    requires RigInv(r, chain, lost, k)
    ensures Safe(r)
  {
    hide VqInv, Owns;
    SafeByChain(r, chain, lost);
  }

  /** A driver that stops submitting after its first timeout is safe whatever the device does. */
  lemma {:induction false} CarefulIsAnswered(r: Rig, chain: seq<int>, lost: set<nat>, k: nat, es: seq<Event>)
    requires RigInv(r, chain, lost, k) && Careful(r, es)
    ensures AllAnswered(r, es)
    decreases |es|
  {
    hide RigInv, Exec, Call, Answered;
    if es != [] {
      var e := es[0];
      if e.Submit? {
        if r.q.numFree >= 3 { NoTimeoutSafe(r, chain, lost, k, e.kind, e.ks, e.status); } else { RefusedAnswered(r, e); }
      }
      var c, l, n := EventExact(r, chain, lost, k, e);
      CarefulIsAnswered(Exec(r, e), c, l, n, es[1..]);
    }
  }

  lemma RefusedAnswered(r: Rig, e: Event)
    requires e.Submit? && r.q.numFree < 3
    ensures var (r', o) := Call(r, e.kind, e.ks, e.status); Answered(r, r', o)
  {
  }

  /** Set-up, before any request. */
  function Start(num: nat, header: nat, data: nat, status: nat): Rig {
    Rig(Setup(num, header, data, status), 0, [])
  }

  lemma StartInv(num: nat, header: nat, data: nat, status: nat)
    requires 0 < num <= END
    ensures RigInv(Start(num, header, data, status), Count(num), {}, 0)
  {
    hide VqInv;
    SetupInv(num, header, data, status);
    SetupIndices(num, header, data, status);
    hide Setup;
    NothingOwned();
  }

  lemma SetupIndices(num: nat, header: nat, data: nat, status: nat)
    ensures var q := Setup(num, header, data, status); q.availIdx == 0 && q.lastUsed == 0
  {
  }

  lemma NothingOwned()
    ensures forall x :: !Owns([], x)
  {
  }

  /** The state a safe run leads to. */
  lemma {:induction false} RunReaches(r: Rig, chain: seq<int>, lost: set<nat>, k: nat, es: seq<Event>)
    returns (chain': seq<int>, lost': set<nat>, k': nat)
    requires RigInv(r, chain, lost, k) && AllAnswered(r, es)
    ensures RigInv(ExecAll(r, es), chain', lost', k')
    decreases |es|
  {
    hide RigInv, Exec, EventAnswered;
    chain', lost', k' := chain, lost, k;
    if es != [] {
      chain', lost', k' := EventExact(r, chain, lost, k, es[0]);
      chain', lost', k' := RunReaches(Exec(r, es[0]), chain', lost', k', es[1..]);
    }
  }

  /**
   From set-up on.  Device-owned descriptors stay off the free chain throughout a run if and only if
   every answered call was answered for its own request; submitting only while avail.idx ==
   last_used_idx ensures it; and a request submitted at any other moment can go wrong.
   */
  lemma OwnershipInRuns(num: nat, header: nat, data: nat, status: nat, es: seq<Event>)
    requires 0 < num <= END
    ensures var r := Start(num, header, data, status);
      && (AllSafe(r, es) <==> AllAnswered(r, es))
      && (Careful(r, es) ==> AllSafe(r, es))
      && (AllSafe(r, es) && ExecAll(r, es).q.numFree >= 3 ==>
            (ExecAll(r, es).q.availIdx == ExecAll(r, es).q.lastUsed
             <==> forall kind, ks, st :: Safe(Call(ExecAll(r, es), kind, ks, st).0)))
  {
    hide RigInv, Safe, Exec, AllAnswered, AllSafe, Careful, ExecAll, Call;
    var r := Start(num, header, data, status);
    StartInv(num, header, data, status);
    RunSafeIff(r, Count(num), {}, 0, es);
    if Careful(r, es) { CarefulIsAnswered(r, Count(num), {}, 0, es); }
    if AllSafe(r, es) && ExecAll(r, es).q.numFree >= 3 {
      var c, l, k := RunReaches(r, Count(num), {}, 0, es);
      CallSafeIff(ExecAll(r, es), c, l, k);
    }
  }

  // ---- failing runs -------------------------------------------------------------------------

  /** The first request times out. */
  lemma FirstTimesOut(num: nat, header: nat, data: nat, status: nat) returns (chain: seq<int>, lost: set<nat>)
    requires 6 <= num <= END
    ensures var r := Start(num, header, data, status); var r1 := Exec(r, Submit(T_IN, [], STATUS_OK));
      && RigInv(r1, chain, lost, 1) && EventAnswered(r, Submit(T_IN, [], STATUS_OK))
      && r1.q.numFree == num - 3 && r1.used == r1.q.lastUsed == 0 && r1.q.availIdx == 1 && |r1.out| == 1
  {
    var r := Start(num, header, data, status);
    StartInv(num, header, data, status);
    var k;
    chain, lost, k := CallExact(r, Count(num), {}, 0, T_IN, [], STATUS_OK);
    OwnOnChain(r, Count(num), {}, 0);
    CallShape(r, T_IN, [], STATUS_OK);
    var r1 := Exec(r, Submit(T_IN, [], STATUS_OK));
    hide VqInv;
    FewTimeouts(r1, chain, lost, k);
  }

  /**
   Two runs that go wrong after one timeout.  The late completion comes between the calls, and the
   next call returns at once although the device has not touched its request; or it comes while the
   next call polls, which was submitted with used.idx == last_used_idx, and ends that poll.
   */
  lemma LateCompletionShares(num: nat, header: nat, data: nat, status: nat)
    requires 6 <= num <= END
    ensures var r := Start(num, header, data, status); var first, next := Submit(T_IN, [], STATUS_OK), Submit(T_IN, [0], STATUS_OK);
      && !AllSafe(r, [first, DeviceDone(0), first])
      && ExecAll(r, [first]).used == ExecAll(r, [first]).q.lastUsed && !AllSafe(r, [first, next])
  {
    hide RigInv, Safe, Exec, Call, Answered;
    var r := Start(num, header, data, status);
    var first, next := Submit(T_IN, [], STATUS_OK), Submit(T_IN, [0], STATUS_OK);
    var chain, lost := FirstTimesOut(num, header, data, status);
    var r1 := Exec(r, first);
    LateRuns(r, r1, chain, lost);
  }

  lemma LateRuns(r: Rig, r1: Rig, chain: seq<int>, lost: set<nat>)
    requires r1 == Exec(r, Submit(T_IN, [], STATUS_OK)) && RigInv(r1, chain, lost, 1) && r1.q.numFree >= 3
    requires r1.used == r1.q.lastUsed == 0 && r1.q.availIdx == 1 && |r1.out| == 1
    ensures var first, next := Submit(T_IN, [], STATUS_OK), Submit(T_IN, [0], STATUS_OK);
      && !AllSafe(r, [first, DeviceDone(0), first])
      && ExecAll(r, [first]) == r1 && !AllSafe(r, [first, next])
  {
    hide RigInv, Safe, Call, Answered;
    var first, next := Submit(T_IN, [], STATUS_OK), Submit(T_IN, [0], STATUS_OK);
    var r2 := Exec(r1, DeviceDone(0));
    DeviceKeeps(r1, chain, lost, 1, 0);
    var none := LaterCallFails(r2, chain, lost, 1, T_IN, STATUS_OK);
    var _, _, _ := CallExact(r2, chain, lost, 1, T_IN, [], STATUS_OK);
    var one := LaterCallFails(r1, chain, lost, 1, T_IN, STATUS_OK);
    var _, _, _ := CallExact(r1, chain, lost, 1, T_IN, [0], STATUS_OK);
    hide Exec;
    assert !Safe(Exec(r2, first)) && !Safe(Exec(r1, next));
    assert [first, DeviceDone(0)][1..] == [DeviceDone(0)] && [DeviceDone(0)][1..] == [] && [first][1..] == [];
    assert ExecAll(r, [first]) == r1;
    assert ExecAll(r1, [DeviceDone(0)]) == r2;
    assert ExecAll(r, [first, DeviceDone(0)]) == r2;
    UnsafeAtEnd(r, [first, DeviceDone(0)], first);
    UnsafeAtEnd(r, [first], next);
    assert [first, DeviceDone(0)] + [first] == [first, DeviceDone(0), first] && [first] + [next] == [first, next];
  }

  lemma {:induction false} UnsafeAtEnd(r: Rig, es: seq<Event>, e: Event)
    requires !Safe(Exec(ExecAll(r, es), e))
    ensures !AllSafe(r, es + [e])
    decreases |es|
  {
    hide Safe, Exec;
    if es == [] {
      assert ([] + [e])[1..] == [];
    } else {
      UnsafeAtEnd(Exec(r, es[0]), es[1..], e);
      assert (es + [e])[1..] == es[1..] + [e];
    }
  }
}
