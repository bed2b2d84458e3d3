/**
 Where a message goes: the exact effect of channel operations (src/chan.c) on queues, rings and counts,
 in terms of what a caller can see before the call.
 */
module Delivery {
  import opened Words
  import opened Tasks
  import opened Scheduler
  import opened Routes
  import opened Channels

  // ---- messages ---------------------------------------------------------------------------

  /** m is the message that an emit of t to channel c makes: addressed to c, flag 5 set, all else as in t. */
  ghost predicate MessageOf(t: Task, c: nat, m: Task) {
    && m.channel == c && (forall b: nat :: Bit(m.flags, b) <==> Bit(t.flags, b) || b == 5)
    && m == t.(channel := m.channel, flags := m.flags)
  }

  lemma TaggedIsMessage(t: Task, c: nat)
    ensures MessageOf(t, c, Tagged(t, c))
  {
    assert Pow2(5) == CHANNEL_MSG;
    forall b: nat ensures Bit(Or(t.flags, CHANNEL_MSG), b) <==> Bit(t.flags, b) || b == 5 {
      BitOfOr(t.flags, CHANNEL_MSG, b);
      BitOfPow2(5, b);
    }
  }

  /** x is a copy of t, up to the number that an enqueue gave it. */
  predicate CopyOf(x: Task, t: Task) {
    x.(serial := 0) == t.(serial := 0)
  }

  predicate CopiesOf(q: seq<Task>, t: Task) {
    forall x :: x in q ==> CopyOf(x, t)
  }

  // ---- dead letters -----------------------------------------------------------------------

  /** Up to k copies of t have come last in the ring of sys.dropped, as many as it had room for; nothing else changed. */
  ghost predicate DeadLettersGrown(chans: seq<Chan>, chans': seq<Chan>, t: Task, k: nat) {
    && |chans'| == |chans| && (forall c :: 0 <= c < |chans| && c != SYS_DROPPED ==> chans'[c] == chans[c])
    && (SYS_DROPPED < |chans| ==>
          var ch := chans[SYS_DROPPED]; var ring := chans'[SYS_DROPPED].ring;
          var room: nat := if ch.open && |ch.ring| < ch.cap then ch.cap - |ch.ring| else 0;
          && chans'[SYS_DROPPED] == ch.(ring := ring) && ch.ring <= ring
          && |ring| == |ch.ring| + Least(k, room) && CopiesOf(ring[|ch.ring|..], t))
  }

  lemma DeadLetterLands(w: World, t: Task)
    ensures var w' := DeadLetter(w, t); DeadLettersGrown(w.chans, w'.chans, t, 1) && w' == w.(chans := w'.chans)
  {
    if SYS_DROPPED < |w.chans| {
      var ch := w.chans[SYS_DROPPED];
      assert (ch.ring + [t])[|ch.ring|..] == [t] && ch.ring[|ch.ring|..] == [];
    }
  }

  lemma NoDeadLetters(chans: seq<Chan>, t: Task)
    ensures DeadLettersGrown(chans, chans, t, 0)
  {
    if SYS_DROPPED < |chans| { assert chans[SYS_DROPPED].ring[|chans[SYS_DROPPED].ring|..] == []; }
  }

  lemma DeadLettersAdd(a: seq<Chan>, b: seq<Chan>, c: seq<Chan>, t: Task, j: nat, k: nat)
    requires DeadLettersGrown(a, b, t, j) && DeadLettersGrown(b, c, t, k)
    ensures DeadLettersGrown(a, c, t, j + k)
  {
    if SYS_DROPPED < |a| {
      var p, q, r := a[SYS_DROPPED].ring, b[SYS_DROPPED].ring, c[SYS_DROPPED].ring;
      assert r[|p|..] == q[|p|..] + r[|q|..];
    }
  }

  /** Copies are copies of whatever else is a copy of the same task. */
  lemma DeadLettersOfCopy(a: seq<Chan>, b: seq<Chan>, x: Task, t: Task, k: nat)
    requires DeadLettersGrown(a, b, x, k) && CopyOf(x, t)
    ensures DeadLettersGrown(a, b, t, k)
  {
  }

  // ---- fan-out ------------------------------------------------------------------------------

  /** The copies meant for worker k, in subscriber order, numbered from n on. */
  function CopiesFor(subs: seq<Sub>, k: int, n: nat, t: Task): seq<Task> {
    if subs == [] then []
    else if !subs[0].active then CopiesFor(subs[1..], k, n, t)
    else (if subs[0].worker == k then [t.(serial := Wrap(n))] else []) + CopiesFor(subs[1..], k, n + 1, t)
  }

  /** What an LQ of n tasks takes of q before it is at its watermark. */
  function Fits(q: seq<Task>, n: nat): seq<Task> {
    q[..Least(|q|, if n < LQ_WATERMARK then LQ_WATERMARK - n else 0)]
  }

  /** Every worker's LQ has grown by the copies meant for that worker, as far as they fit. */
  ghost predicate LqsFilled(s: Sched, s': Sched, t: Task, subs: seq<Sub>) {
    && |s'.lqs| == |s.lqs|
    && forall k :: 0 <= k < |s.lqs| ==> s'.lqs[k] == s.lqs[k] + Fits(CopiesFor(subs, k, s.nextSeq, t), |s.lqs[k]|)
  }

  /** Of the RQ, only the queue of t's priority has grown, by copies of t. */
  ghost predicate RqFilled(s: Sched, s': Sched, t: Task)
    requires |s.rq.queues| == 4
  {
    var p := Priority(t);
    && |s'.rq.queues| == 4 && s'.rq.counters == s.rq.counters
    && (forall i :: 0 <= i < 4 && i != p ==> s'.rq.queues[i] == s.rq.queues[i])
    && s.rq.queues[p] <= s'.rq.queues[p] && CopiesOf(s'.rq.queues[p][|s.rq.queues[p]|..], t)
    && (|s.rq.queues[p]| <= RQ_CAP ==> |s'.rq.queues[p]| <= RQ_CAP)
  }

  ghost function Repeat(t: Task, n: nat): multiset<Task> {
    multiset{}[Unserial(t) := n]
  }

  /**
   A fan-out of t to subs of which a copies were accepted: local queues filled in subscriber order, the
   rest of the accepted copies in the RQ, none refused before the RQ is full, and the refused ones
   dead-lettered if the channel is lossless.
   */
  ghost predicate FannedOut(w: World, t: Task, lossless: bool, subs: seq<Sub>, w': World, a: nat)
    requires |w.sched.rq.queues| == 4
  {
    var s, s' := w.sched, w'.sched;
    && a <= Active(subs) && LqsFilled(s, s', t, subs) && RqFilled(s, s', t)
    && (a < Active(subs) ==> |s'.rq.queues[Priority(t)]| >= RQ_CAP)
    && s'.overflow == s.overflow && s'.evq == s.evq && s'.evqSeq == s.evqSeq && s'.nextSeq == Wrap(s.nextSeq + Active(subs))
    && Total(s') == Total(s) + Repeat(t, a)
    && DeadLettersGrown(w.chans, w'.chans, t, if lossless then Active(subs) - a else 0)
  }

  lemma {:induction false} CopiesNumbered(subs: seq<Sub>, k: int, n: nat, m: nat, t: Task)
    requires Wrap(n) == Wrap(m)
    ensures CopiesFor(subs, k, n, t) == CopiesFor(subs, k, m, t)
    decreases |subs|
  {
    if subs != [] {
      WrapAdd(n, 1);
      WrapAdd(m, 1);
      CopiesNumbered(subs[1..], k, if subs[0].active then n + 1 else n, if subs[0].active then m + 1 else m, t);
    }
  }

  /** One copy, then the rest: what one LQ takes. */
  lemma FitsOneMore(lq: seq<Task>, x: Task, mine: bool, rest: seq<Task>)
    ensures var all := if mine then [x] + rest else rest; var lq1 := if mine && |lq| < LQ_WATERMARK then lq + [x] else lq;
      lq + Fits(all, |lq|) == lq1 + Fits(rest, |lq1|)
  {
    if mine && |lq| < LQ_WATERMARK {
      var room := LQ_WATERMARK - |lq|;
      assert ([x] + rest)[..Least(|rest| + 1, room)] == [x] + rest[..Least(|rest|, room - 1)];
    }
  }

  lemma FirstCopyLqs(s: Sched, s1: Sched, s': Sched, t: Task, subs: seq<Sub>, ok: bool)
    requires subs != [] && subs[0].active && |s.rq.queues| == 4 && Enqueued(s, t, subs[0].worker, s1, ok) && s.nextSeq < TWO32
    requires LqsFilled(s1, s', t, subs[1..])
    ensures LqsFilled(s, s', t, subs)
  {
    hide Fits;
    var x := t.(serial := s.nextSeq);
    assert Wrap(s.nextSeq) == s.nextSeq;
    forall k | 0 <= k < |s.lqs| ensures s'.lqs[k] == s.lqs[k] + Fits(CopiesFor(subs, k, s.nextSeq, t), |s.lqs[k]|) {
      var rest := CopiesFor(subs[1..], k, s1.nextSeq, t);
      WrapAdd(s.nextSeq + 1, 0);
      CopiesNumbered(subs[1..], k, s1.nextSeq, s.nextSeq + 1, t);
      assert CopiesFor(subs, k, s.nextSeq, t) == if subs[0].worker == k then [x] + rest else rest;
      FitsOneMore(s.lqs[k], x, subs[0].worker == k, rest);
    }
  }

  lemma FirstCopyRq(s: Sched, s1: Sched, s': Sched, t: Task, worker: int, ok: bool)
    requires |s.rq.queues| == 4 && Enqueued(s, t, worker, s1, ok) && |s1.rq.queues| == 4 && RqFilled(s1, s', t)
    ensures RqFilled(s, s', t)
  {
    var p := Priority(t);
    var a, b, c := s.rq.queues[p], s1.rq.queues[p], s'.rq.queues[p];
    assert c[|a|..] == b[|a|..] + c[|b|..];
  }

  lemma OneMore(t: Task, a: nat)
    ensures When(true, t) + Repeat(t, a) == Repeat(t, a + 1) && When(false, t) + Repeat(t, a) == Repeat(t, a)
  {
  }

  /** The first copy: enqueued, or dead-lettered on a lossless channel. */
  lemma FirstCopy(w: World, t: Task, lossless: bool, sub: Sub)
    requires SchedInv(w.sched)
    ensures var w1 := CopyTo(w, t, lossless, sub); var ok := Enqueue(w.sched, t, sub.worker).1;
      && SchedInv(w1.sched) && Enqueued(w.sched, t, sub.worker, w1.sched, ok)
      && Total(w1.sched) == Total(w.sched) + When(ok, t)
      && DeadLettersGrown(w.chans, w1.chans, t, if ok || !lossless then 0 else 1)
  {
    hide Total, SchedInv, Enqueued, Enqueue, DeadLettersGrown, HasRefcount, DeadLetter;
    EnqueueLands(w.sched, t, sub.worker);
    EnqueueConserves(w.sched, t, sub.worker);
    NoDeadLetters(w.chans, t);
    var (s, ok) := Enqueue(w.sched, t, sub.worker);
    var x := Numbered(w, t);
    DeadLetterLands(w.(sched := s), x);
    var w2 := DeadLetter(w.(sched := s), x);
    DeadLettersOfCopy(w.chans, w2.chans, x, t, 1);
  }

  /** Copies land where their subscribers are, in subscriber order, and nowhere else. */
  lemma {:induction false} CopiesLand(w: World, t: Task, lossless: bool, subs: seq<Sub>) returns (a: nat)
    requires SchedInv(w.sched)
    ensures FannedOut(w, t, lossless, subs, CopyAll(w, t, lossless, subs), a)
    decreases |subs|
  {
    hide SchedInv, Total, Enqueue, CopyTo, DeadLettersGrown, Enqueued, RqFilled, LqsFilled, Repeat, When, FannedOut;
    a := 0;
    SmallNumber(w.sched);
    if subs == [] {
      NothingFanned(w, t, lossless);
    } else if !subs[0].active {
      a := CopiesLand(w, t, lossless, subs[1..]);
      FannedSkips(w, t, lossless, subs, CopyAll(w, t, lossless, subs[1..]), a);
    } else {
      FirstCopy(w, t, lossless, subs[0]);
      var w1 := CopyTo(w, t, lossless, subs[0]);
      var w' := CopyAll(w1, t, lossless, subs[1..]);
      var b := CopiesLand(w1, t, lossless, subs[1..]);
      var ok := Enqueue(w.sched, t, subs[0].worker).1;
      FannedParts(w1, t, lossless, subs[1..], w', b);
      FirstCopyLqs(w.sched, w1.sched, w'.sched, t, subs, ok);
      FirstCopyRq(w.sched, w1.sched, w'.sched, t, subs[0].worker, ok);
      a := if ok then b + 1 else b;
      FirstCopyRest(w.sched, w1.sched, w'.sched, t, subs[0].worker, ok, Active(subs[1..]));
      JoinCopies(w, w1, w', t, lossless, subs, ok, b);
    }
  }

  lemma JoinCopies(w: World, w1: World, w': World, t: Task, lossless: bool, subs: seq<Sub>, ok: bool, b: nat)
    requires subs != [] && subs[0].active && |w.sched.rq.queues| == 4 && |w1.sched.rq.queues| == 4
    requires FannedOut(w1, t, lossless, subs[1..], w', b) && Total(w1.sched) == Total(w.sched) + When(ok, t)
    requires DeadLettersGrown(w.chans, w1.chans, t, if ok || !lossless then 0 else 1)
    requires LqsFilled(w.sched, w'.sched, t, subs) && RqFilled(w.sched, w'.sched, t)
    requires var s, s1 := w.sched, w1.sched; s1.overflow == s.overflow && s1.evq == s.evq && s1.evqSeq == s.evqSeq
    requires Wrap(w1.sched.nextSeq + Active(subs[1..])) == Wrap(w.sched.nextSeq + (Active(subs[1..]) + 1))
    requires |w'.sched.rq.queues| == 4 && (!ok ==> |w'.sched.rq.queues[Priority(t)]| >= RQ_CAP)
    ensures FannedOut(w, t, lossless, subs, w', if ok then b + 1 else b)
  {
    hide Total, DeadLettersGrown, RqFilled, LqsFilled, Repeat, When;
    OneMore(t, b);
    var n := Active(subs[1..]) - b;
    DeadLettersAdd(w.chans, w1.chans, w'.chans, t, if ok || !lossless then 0 else 1, if lossless then n else 0);
  }

  /** What FannedOut says of the queues. */
  lemma FannedParts(w: World, t: Task, lossless: bool, subs: seq<Sub>, w': World, a: nat)
    requires |w.sched.rq.queues| == 4 && FannedOut(w, t, lossless, subs, w', a)
    ensures LqsFilled(w.sched, w'.sched, t, subs) && RqFilled(w.sched, w'.sched, t)
  {
  }

  lemma FannedSkips(w: World, t: Task, lossless: bool, subs: seq<Sub>, w': World, a: nat)
    requires subs != [] && !subs[0].active && |w.sched.rq.queues| == 4 && FannedOut(w, t, lossless, subs[1..], w', a)
    ensures FannedOut(w, t, lossless, subs, w', a)
  {
    hide Total, DeadLettersGrown, RqFilled, LqsFilled, Repeat;
    SkipInactive(w.sched, w'.sched, t, subs);
  }

  lemma SmallNumber(s: Sched)
    requires SchedInv(s)
    ensures s.nextSeq < TWO32
  {
  }

  /** The other parts of the scheduler, the next number, and a full RQ that stays full. */
  lemma FirstCopyRest(s: Sched, s1: Sched, s': Sched, t: Task, worker: int, ok: bool, n: nat)
    requires |s.rq.queues| == 4 && Enqueued(s, t, worker, s1, ok) && |s1.rq.queues| == 4 && RqFilled(s1, s', t)
    ensures s1.overflow == s.overflow && s1.evq == s.evq && s1.evqSeq == s.evqSeq
    ensures Wrap(s1.nextSeq + n) == Wrap(s.nextSeq + (n + 1))
    ensures |s'.rq.queues| == 4 && (!ok ==> |s'.rq.queues[Priority(t)]| >= RQ_CAP)
  {
    WrapTwice(s.nextSeq, n);
  }

  lemma NothingFanned(w: World, t: Task, lossless: bool)
    requires SchedInv(w.sched)
    ensures FannedOut(w, t, lossless, [], w, 0)
  {
    hide SchedInv, Total, DeadLettersGrown;
    NoDeadLetters(w.chans, t);
    SmallNumber(w.sched);
    var p := Priority(t);
    assert w.sched.rq.queues[p][|w.sched.rq.queues[p]|..] == [];
  }

  lemma SkipInactive(s: Sched, s': Sched, t: Task, subs: seq<Sub>)
    requires subs != [] && !subs[0].active && LqsFilled(s, s', t, subs[1..])
    ensures LqsFilled(s, s', t, subs)
  {
    hide Fits;
  }

  /** What a fan-out leaves in one subscriber's queue: nothing if nobody active is on that worker, and all copies if they fit. */
  lemma {:induction false} CopiesCount(subs: seq<Sub>, k: int, n: nat, t: Task)
    ensures |CopiesFor(subs, k, n, t)| == |set i | 0 <= i < |subs| && subs[i].active && subs[i].worker == k|
    ensures CopiesOf(CopiesFor(subs, k, n, t), t)
    decreases |subs|
  {
    var mine := set i | 0 <= i < |subs| && subs[i].active && subs[i].worker == k;
    if subs == [] {
      assert mine == {};
    } else {
      var rest := set i | 0 <= i < |subs[1..]| && subs[1..][i].active && subs[1..][i].worker == k;
      CopiesCount(subs[1..], k, if subs[0].active then n + 1 else n, t);
      HeadAndTail(mine, subs[0].active && subs[0].worker == k, rest, |subs|);
    }
  }

  /** Active counts the active subscribers. */
  lemma {:induction false} ActiveCount(subs: seq<Sub>)
    ensures Active(subs) == |set i | 0 <= i < |subs| && subs[i].active|
    decreases |subs|
  {
    var all := set i | 0 <= i < |subs| && subs[i].active;
    if subs == [] {
      assert all == {};
    } else {
      var rest := set i | 0 <= i < |subs[1..]| && subs[1..][i].active;
      ActiveCount(subs[1..]);
      HeadAndTail(all, subs[0].active, rest, |subs|);
    }
  }

  lemma {:induction false} ShiftedCard(s: set<int>, n: nat)
    requires s == set i | 0 <= i < n && i in s
    ensures |set i | i in s :: i + 1| == |s|
    decreases n
  {
    if n == 0 {
      assert s == {};
    } else if n - 1 in s {
      ShiftedCard(s - {n - 1}, n - 1);
      ShiftOne(s, n - 1);
    } else {
      ShiftedCard(s, n - 1);
    }
  }

  lemma ShiftOne(s: set<int>, x: int)
    requires x in s
    ensures |set i | i in s :: i + 1| == |set i | i in s - {x} :: i + 1| + 1
  {
    var a, b := set i | i in s :: i + 1, set i | i in s - {x} :: i + 1;
    assert a == b + {x + 1} by {
      forall y | y in a ensures y in b || y == x + 1 { if y != x + 1 { assert y - 1 in s - {x}; } }
      assert x in s;
    }
    assert x + 1 !in b;
  }

  /** The indices of a sequence that satisfy a test: index 0 or not, and those of the tail moved up by one. */
  lemma HeadAndTail(all: set<int>, head: bool, rest: set<int>, n: nat)
    requires rest == set i | 0 <= i < n && i in rest
    requires forall i :: i in all <==> (i == 0 && head) || i - 1 in rest
    ensures |all| == |rest| + if head then 1 else 0
  {
    ShiftedCard(rest, n);
    var shifted := set i | i in rest :: i + 1;
    assert all == (if head then {0} else {}) + shifted by {
      forall i | i in all ensures (i == 0 && head) || i in shifted { if i != 0 { assert i - 1 in rest; } }
    }
    assert 0 !in shifted;
  }

  // ---- deliveries ---------------------------------------------------------------------------

  /**
   One delivery: a point-to-point message goes to its subscriber's worker, and is dead-lettered with its
   reference lost when no queue takes it; a fan-out goes to all active subscribers; without an active
   subscriber the reference is lost and nothing else happens.
   */
  ghost predicate Delivered(w: World, ch: Chan, t: Task, w': World)
    requires |w.sched.rq.queues| == 4 && ch.subs != []
  {
    if (if ch.mode.P2P? then !ch.subs[0].active else Active(ch.subs) == 0) then w' == w.(leaked := w.leaked + Held(t))
    else if ch.mode.P2P? then
      exists ok ::
        && Enqueued(w.sched, t, ch.subs[0].worker, w'.sched, ok)
        && DeadLettersGrown(w.chans, w'.chans, t, if ok then 0 else 1)
        && w' == w.(sched := w'.sched, chans := w'.chans, leaked := w.leaked + if ok then multiset{} else Held(t))
    else
      w'.leaked == w.leaked && exists a: nat :: FannedOut(w, t, ch.lossless, ch.subs, w', a)
  }

  lemma LeakIsHeld(w: World, t: Task)
    ensures Leak(w, t) == w.(leaked := w.leaked + Held(t))
  {
  }

  lemma DeliverLands(w: World, ch: Chan, t: Task)
    requires SchedInv(w.sched) && ch.subs != []
    ensures Delivered(w, ch, t, Deliver(w, ch, t))
  {
    hide SchedInv, Enqueue, CopyAll, Retains, Active, DeadLetter, DeadLettersGrown, Enqueued, FannedOut, Leak, Held, HasRefcount;
    LeakIsHeld(w, t);
    var w' := Deliver(w, ch, t);
    if ch.mode.P2P? && ch.subs[0].active {
      DirectLands(w, t, ch.subs[0].worker, w');
    } else if ch.mode.Fanout? && Active(ch.subs) > 0 {
      var n := Active(ch.subs);
      RetainsTouchNoRing(w, t.payload, n - 1);
      RetainsLeakNothing(w, t.payload, n - 1);
      var w1 := if HasRefcount(t) then Retains(w, t.payload, n - 1) else w;
      var a := CopiesLand(w1, t, ch.lossless, ch.subs);
      CopiesLeakNothing(w1, t, ch.lossless, ch.subs);
      SameScene(w, w1, t, ch.lossless, ch.subs, w', a);
    }
  }

  lemma SameScene(w: World, w1: World, t: Task, lossless: bool, subs: seq<Sub>, w': World, a: nat)
    requires w1.sched == w.sched && w1.chans == w.chans && |w.sched.rq.queues| == 4 && FannedOut(w1, t, lossless, subs, w', a)
    ensures FannedOut(w, t, lossless, subs, w', a)
  {
    hide Total, DeadLettersGrown, RqFilled, LqsFilled, Repeat;
  }

  lemma DirectLands(w: World, t: Task, worker: int, w': World)
    requires |w.sched.rq.queues| == 4
    requires var (s, ok) := Enqueue(w.sched, t, worker); var w1 := w.(sched := s);
      w' == if ok then w1 else Leak(DeadLetter(w1, Numbered(w, t)), t)
    ensures exists ok ::
      && Enqueued(w.sched, t, worker, w'.sched, ok)
      && DeadLettersGrown(w.chans, w'.chans, t, if ok then 0 else 1)
      && w' == w.(sched := w'.sched, chans := w'.chans, leaked := w.leaked + if ok then multiset{} else Held(t))
  {
    hide Enqueue, DeadLetter, DeadLettersGrown, Enqueued, Leak, Held;
    EnqueueLands(w.sched, t, worker);
    NoDeadLetters(w.chans, t);
    var (s, ok) := Enqueue(w.sched, t, worker);
    var w1, x := w.(sched := s), Numbered(w, t);
    DeadLetterLands(w1, x);
    var w2 := DeadLetter(w1, x);
    DeadLettersOfCopy(w1.chans, w2.chans, x, t, 1);
    LeakIsHeld(w2, t);
    assert Enqueued(w.sched, t, worker, w'.sched, ok);
  }

  /** The first message is out of channel c's ring. */
  function Popped(w: World, c: nat): World
    requires c < |w.chans| && w.chans[c].ring != []
  {
    w.(chans := w.chans[c := w.chans[c].(ring := w.chans[c].ring[1..])])
  }

  /** A drain delivers the first messages of the ring, one after the other, at most n of them. */
  ghost predicate DrainedBy(w: World, c: nat, n: nat, w': World)
    decreases n
  {
    if n == 0 || c >= |w.chans| || w.chans[c].subs == [] || w.chans[c].ring == [] then w' == w
    else
      var ch := w.chans[c];
      var w0 := Popped(w, c);
      |w0.sched.rq.queues| == 4 && exists w1 :: Delivered(w0, ch, ch.ring[0], w1) && DrainedBy(w1, c, n - 1, w')
  }

  lemma {:induction false} DrainLands(w: World, c: nat, n: nat)
    requires SchedInv(w.sched) && c < |w.chans|
    ensures DrainedBy(w, c, n, Drain(w, c, n))
    decreases n
  {
    hide SchedInv, Deliver, Delivered;
    if n > 0 && w.chans[c].subs != [] && w.chans[c].ring != [] {
      var ch := w.chans[c];
      var w0 := SetRing(w, c, ch.ring[1..]);
      DeliverLands(w0, ch, ch.ring[0]);
      var w1 := Deliver(w0, ch, ch.ring[0]);
      DeliverSound(w0, ch, ch.ring[0]);
      DrainLands(w1, c, n - 1);
      assert Delivered(w0, ch, ch.ring[0], w1) && DrainedBy(w1, c, n - 1, Drain(w, c, n));
    }
  }

  lemma {:induction false} CopiesSound(w: World, t: Task, lossless: bool, subs: seq<Sub>)
    requires SchedInv(w.sched)
    ensures SchedInv(CopyAll(w, t, lossless, subs).sched)
    decreases |subs|
  {
    hide SchedInv, Enqueue, HasRefcount, Total;
    if subs != [] {
      EnqueueConserves(w.sched, t, subs[0].worker);
      CopiesSound(if subs[0].active then CopyTo(w, t, lossless, subs[0]) else w, t, lossless, subs[1..]);
    }
  }

  lemma DeliverSound(w: World, ch: Chan, t: Task)
    requires SchedInv(w.sched) && ch.subs != []
    ensures SchedInv(Deliver(w, ch, t).sched)
  {
    hide SchedInv, Enqueue, CopyAll, Retains, Active, HasRefcount, Total;
    if ch.mode.P2P? {
      EnqueueConserves(w.sched, t, ch.subs[0].worker);
    } else if Active(ch.subs) > 0 {
      RetainsLeakNothing(w, t.payload, Active(ch.subs) - 1);
      CopiesSound(if HasRefcount(t) then Retains(w, t.payload, Active(ch.subs) - 1) else w, t, ch.lossless, ch.subs);
    }
  }

  // ---- emits ----------------------------------------------------------------------------------

  /** Nine tenths of the capacity, rounded up, are open to every priority; the rest only to priority 0. */
  lemma ThresholdIsNineTenths(cap: nat)
    requires cap * 10 < TWO32
    ensures 10 * Threshold(cap) >= 9 * cap && 10 * (Threshold(cap) - 1) < 9 * cap
  {
  }

  /**
   The ring part of an emit: refused exactly when the ring is full; else message m comes last, and t's
   reference goes along (for good, in sys.dropped); a point-to-point channel is drained of one message.
   */
  ghost predicate Buffered(w: World, c: nat, t: Task, m: Task, w': World, rc: int)
    requires c < |w.chans|
  {
    var ch := w.chans[c];
    if |ch.ring| >= ch.cap then rc == CHAN_FULL && w' == w
    else
      var w1 := w.(chans := w.chans[c := ch.(ring := ch.ring + [m])], held := w.held - Held(t),
                   leaked := w.leaked + if c == 1 then Held(t) else multiset{});
      rc == 0 && if ch.mode.P2P? then DrainedBy(w1, c, 1, w') else w' == w1
  }

  /**
   An emit: refused without effect for no such channel, a closed one, or a non-critical message above the
   threshold; a bound point-to-point channel hands the message to its subscriber's worker if a queue takes
   it; everything else is buffered.
   */
  ghost predicate Emitted(w: World, c: nat, t: Task, w': World, rc: int)
    requires |w.sched.rq.queues| == 4
  {
    if c >= |w.chans| then rc == ERR_INVALID && w' == w
    else if !w.chans[c].open then rc == CHAN_CLOSED && w' == w
    else if |w.chans[c].ring| >= Threshold(w.chans[c].cap) && Priority(t) != 0 then rc == CHAN_FULL && w' == w
    else
      var ch := w.chans[c];
      exists m :: MessageOf(t, c, m) &&
        if ch.mode.P2P? && |ch.subs| == 1 && ch.subs[0].active then
          exists s, ok :: Enqueued(w.sched, m, ch.subs[0].worker, s, ok) &&
            if ok then rc == 0 && w' == w.(sched := s, held := w.held - Held(t))
            else Buffered(w.(sched := s), c, t, m.(serial := w.sched.nextSeq), w', rc)
        else Buffered(w, c, t, m, w', rc)
  }

  lemma OwnIsHeld(w: World, t: Task)
    ensures Own(w, t) == w.(held := w.held - Held(t))
  {
  }

  lemma BufferLands(w: World, c: nat, t: Task, m: Task)
    requires SchedInv(w.sched) && c < |w.chans|
    ensures var (w', rc) := Buffer(w, c, t, m); Buffered(w, c, t, m, w', rc)
  {
    hide SchedInv, Drain, DrainedBy, Own, Leak, Held;
    var ch := w.chans[c];
    if |ch.ring| < ch.cap {
      var w0 := SetRing(w, c, ch.ring + [m]);
      OwnIsHeld(w0, t);
      LeakIsHeld(Own(w0, t), t);
      var w1 := if c == SYS_DROPPED then Leak(Own(w0, t), t) else Own(w0, t);
      assert w1 == w.(chans := w.chans[c := ch.(ring := ch.ring + [m])], held := w.held - Held(t),
                      leaked := w.leaked + if c == 1 then Held(t) else multiset{});
      if ch.mode.P2P? { DrainLands(w1, c, 1); }
    }
  }

  lemma EmitLands(w: World, c: nat, t: Task)
    requires SchedInv(w.sched)
    ensures var (w', rc) := Emit(w, c, t); Emitted(w, c, t, w', rc)
  {
    hide SchedInv, Enqueue, Buffer, Buffered, Tagged, MessageOf, Own, Threshold, Enqueued, Held, Total, Priority;
    var (w', rc) := Emit(w, c, t);
    if c < |w.chans| {
      var ch, m := w.chans[c], Tagged(t, c);
      TaggedIsMessage(t, c);
      TaggedHeld(t, c);
      BufferLands(w, c, t, m);
      if |ch.subs| == 1 {
        var (s, ok) := Enqueue(w.sched, m, ch.subs[0].worker);
        EnqueueLands(w.sched, m, ch.subs[0].worker);
        EnqueueConserves(w.sched, m, ch.subs[0].worker);
        OwnIsHeld(w.(sched := s), t);
        BufferLands(w.(sched := s), c, t, Numbered(w, m));
        assert Enqueued(w.sched, m, ch.subs[0].worker, s, ok);
      }
      assert MessageOf(t, c, m);
    }
  }

  // ---- subscribing ----------------------------------------------------------------------------

  /** The exact condition for each answer of a subscription; an accepted one is the last of the channel, and active. */
  ghost predicate Subscribed(w: World, c: nat, moduleId: nat, worker: int, w': World, rc: int) {
    var there := c < |w.chans|;
    var open := there && w.chans[c].open;
    var bound := open && w.chans[c].mode.P2P? && w.chans[c].subs != [];
    var full := open && !bound && |w.chans[c].subs| >= MAX_CHAN_SUBS;
    && (rc == ERR_INVALID <==> !there) && (rc == CHAN_CLOSED <==> there && !open) && (rc == CHAN_ALREADY_BOUND <==> bound)
    && (rc == CHAN_FULL <==> full) && (rc == 0 <==> open && !bound && !full)
    && (rc != 0 ==> w' == w)
    && (rc == 0 ==> |w'.chans| == |w.chans| && w' == w.(chans := w'.chans))
    && (rc == 0 ==> w'.chans[c] == w.chans[c].(subs := w.chans[c].subs + [Sub(moduleId, worker, true)]))
    && (rc == 0 ==> forall d :: 0 <= d < |w.chans| && d != c ==> w'.chans[d] == w.chans[d])
  }

  lemma SubscribeLands(w: World, c: nat, moduleId: nat, worker: int)
    ensures var (w', rc) := Subscribe(w, c, moduleId, worker); Subscribed(w, c, moduleId, worker, w', rc)
  {
  }
}
