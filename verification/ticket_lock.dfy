/**
 The ticket spinlock of include/ggmk/arch/spinlock.h as a step system over any set of threads:
 one fetch-add, load or store per step.  Tickets are unbounded; comparisons see 32-bit words.
 */
module TicketLock {
  import opened Words
  import opened Sequences

  type Tid = nat

  datatype Pc =
    | Out
    | Spin(ticket: nat)                 // drew a ticket, polling serving
    | In(ticket: nat)                   // acquired
    | Leaving(ticket: nat, cur: nat)    // release has loaded serving, about to store cur + 1

  /** `taken` and `granted` are history: the order of fetch-adds and the order of acquisitions. */
  datatype Lock = Lock(next: nat, serving: nat, pcs: map<Tid, Pc>, taken: seq<Tid>, granted: seq<Tid>)

  ghost predicate LockStep(s: Lock, t: Tid, s': Lock)
    requires t in s.pcs
  {
    match s.pcs[t]
    case Out =>
      s' == s.(next := s.next + 1, pcs := s.pcs[t := Spin(s.next)], taken := s.taken + [t])
    case Spin(k) =>
      s' == if Wrap(s.serving) == Wrap(k) then s.(pcs := s.pcs[t := In(k)], granted := s.granted + [t]) else s
    case In(k) => s' == s.(pcs := s.pcs[t := Leaving(k, s.serving)])
    case Leaving(k, cur) => s' == s.(serving := cur + 1, pcs := s.pcs[t := Out])
  }

  ghost predicate LockInit(s: Lock) {
    && s.next == s.serving == 0 && s.taken == [] && s.granted == []
    && |s.pcs| < TWO32 && forall t :: t in s.pcs ==> s.pcs[t].Out?
  }

  predicate Holds(pc: Pc) {
    pc.In? || pc.Leaving?
  }

  ghost function Active(s: Lock): set<Tid> {
    set t | t in s.pcs && !s.pcs[t].Out?
  }

  ghost predicate ThreadOk(s: Lock, t: Tid)
    requires t in s.pcs && |s.taken| == s.next
  {
    var pc := s.pcs[t];
    && (!pc.Out? ==> s.serving <= pc.ticket < s.next && s.taken[pc.ticket] == t)
    && (Holds(pc) ==> pc.ticket == s.serving && |s.granted| == s.serving + 1)
    && (pc.Leaving? ==> pc.cur == s.serving)
  }

  ghost predicate InLine(s: Lock, k: nat)
    requires k < s.next == |s.taken|
  {
    var t := s.taken[k];
    t in s.pcs && !s.pcs[t].Out? && s.pcs[t].ticket == k
  }

  ghost predicate LockInv(s: Lock) {
    && |s.pcs| < TWO32
    && s.serving <= s.next == |s.taken|
    && s.serving <= |s.granted| <= s.serving + 1 && |s.granted| <= s.next && s.granted == s.taken[..|s.granted|]
    && (forall t :: t in s.pcs ==> ThreadOk(s, t))
    && (forall k :: s.serving <= k < s.next ==> InLine(s, k))
    && (|s.granted| == s.serving + 1 ==> InLine(s, s.serving) && Holds(s.pcs[s.taken[s.serving]]))
  }

  /** The tickets in play are as many as the threads that hold or wait, so 32 bits tell them apart. */
  lemma TicketsInPlay(s: Lock)
    requires LockInv(s)
    ensures s.next - s.serving == |Active(s)| < TWO32
    ensures Wrap(Wrap(s.next) - Wrap(s.serving)) == |Active(s)|
  {
    var q := s.taken[s.serving..];
    forall i | 0 <= i < |q| ensures q[i] in s.pcs && !s.pcs[q[i]].Out? && s.pcs[q[i]].ticket == s.serving + i {
      assert InLine(s, s.serving + i);
    }
    NoDupCard(q);
    forall t ensures t in Elems(q) <==> t in Active(s) {
      if t in Active(s) { assert ThreadOk(s, t); assert q[s.pcs[t].ticket - s.serving] == t; }
    }
    assert Elems(q) == Active(s);
    SubsetCard(Active(s), s.pcs.Keys);
    CounterDistance(s.next, s.serving);
  }

  lemma DrawStep(s: Lock, t: Tid, s': Lock)
    requires LockInv(s) && t in s.pcs && s.pcs[t].Out? && LockStep(s, t, s')
    ensures LockInv(s')
  {
    assert s'.pcs.Keys == s.pcs.Keys;
    forall u | u in s'.pcs ensures ThreadOk(s', u) { assert ThreadOk(s, u); }
    forall k | s'.serving <= k < s'.next ensures InLine(s', k) { if k < s.next { assert InLine(s, k); } }
    if |s.granted| == s.serving + 1 { assert InLine(s, s.serving); }
  }

  lemma EnterStep(s: Lock, t: Tid, s': Lock)
    requires LockInv(s) && t in s.pcs && s.pcs[t].Spin? && LockStep(s, t, s')
    ensures LockInv(s')
  {
    assert s'.pcs.Keys == s.pcs.Keys;
    assert ThreadOk(s, t);
    if Wrap(s.serving) == Wrap(s.pcs[t].ticket) {
      TicketsInPlay(s);
      WrapInjective(s.pcs[t].ticket, s.serving);
      assert s.taken[..s.serving] + [t] == s.taken[..s.serving + 1];
      forall u | u in s'.pcs ensures ThreadOk(s', u) { assert ThreadOk(s, u); }
      forall k | s'.serving <= k < s'.next ensures InLine(s', k) { assert InLine(s, k); }
    }
  }

  lemma LeaveStep(s: Lock, t: Tid, s': Lock)
    requires LockInv(s) && t in s.pcs && Holds(s.pcs[t]) && LockStep(s, t, s')
    ensures LockInv(s')
  {
    assert s'.pcs.Keys == s.pcs.Keys;
    assert ThreadOk(s, t);
    forall u | u in s'.pcs ensures ThreadOk(s', u) { assert ThreadOk(s, u); }
    forall k | s'.serving <= k < s'.next ensures InLine(s', k) { assert InLine(s, k); }
  }

  lemma LockStepInv(s: Lock, t: Tid, s': Lock)
    requires LockInv(s) && t in s.pcs && LockStep(s, t, s')
    ensures LockInv(s')
  {
    match s.pcs[t]
    case Out => DrawStep(s, t, s');
    case Spin(_) => EnterStep(s, t, s');
    case _ => LeaveStep(s, t, s');
  }

  ghost predicate LockRun(run: seq<Lock>, who: seq<Tid>) {
    && |run| == |who| + 1 && LockInit(run[0])
    && forall k :: 0 <= k < |who| ==> who[k] in run[k].pcs && LockStep(run[k], who[k], run[k + 1])
  }

  lemma {:induction false} LockRunInv(run: seq<Lock>, who: seq<Tid>, k: nat)
    requires LockRun(run, who) && k < |run|
    ensures LockInv(run[k])
  {
    if k > 0 {
      LockRunInv(run, who, k - 1);
      LockStepInv(run[k - 1], who[k - 1], run[k]);
    }
  }

  lemma MutualExclusion(run: seq<Lock>, who: seq<Tid>, k: nat, t: Tid, u: Tid)
    requires LockRun(run, who) && k < |run| && t in run[k].pcs && u in run[k].pcs
    requires Holds(run[k].pcs[t]) && Holds(run[k].pcs[u])
    ensures t == u
  {
    LockRunInv(run, who, k);
    assert ThreadOk(run[k], t) && ThreadOk(run[k], u);
  }

  /** Acquisitions happen in ticket order: the grants so far are a prefix of the draws, one per release plus the holder. */
  lemma GrantedInTicketOrder(run: seq<Lock>, who: seq<Tid>, k: nat)
    requires LockRun(run, who) && k < |run|
    ensures run[k].granted <= run[k].taken
    ensures Wrap(Wrap(run[k].next) - Wrap(run[k].serving)) == |Active(run[k])|
    ensures |run[k].granted| == run[k].serving + (if exists t :: t in run[k].pcs && Holds(run[k].pcs[t]) then 1 else 0)
  {
    LockRunInv(run, who, k);
    TicketsInPlay(run[k]);
    var s := run[k];
    if |s.granted| == s.serving + 1 { assert InLine(s, s.serving); }
    if t :| t in s.pcs && Holds(s.pcs[t]) { assert ThreadOk(s, t); }
  }

  /** While the lock is free and drawn, the next spinner in line gets it at its next poll; nobody else does. */
  lemma NextInLineEnters(s: Lock, t: Tid, s': Lock)
    requires LockInv(s) && t in s.pcs && s.pcs[t].Spin? && LockStep(s, t, s')
    ensures s'.pcs[t].In? <==> s.taken[s.serving] == t
    ensures s'.pcs[t].In? ==> forall u :: u in s.pcs ==> !Holds(s.pcs[u])
  {
    TicketsInPlay(s);
    assert ThreadOk(s, t) && InLine(s, s.serving);
    if Wrap(s.serving) == Wrap(s.pcs[t].ticket) { WrapInjective(s.pcs[t].ticket, s.serving); }
    forall u | u in s.pcs && Holds(s.pcs[u]) ensures u == s.taken[s.serving] { assert ThreadOk(s, u); }
  }
}
