/** Used/free page maps: counting, runs of free pages, and the choices of the allocator in arch/x86_64/pmm.c. */
module PageMap {

  function CountFree(used: seq<bool>): nat {
    if used == [] then 0 else CountFree(used[..|used| - 1]) + (if used[|used| - 1] then 0 else 1)
  }

  /** Pages s .. s + n - 1 exist and are free. */
  ghost predicate Run(used: seq<bool>, s: nat, n: nat) {
    s + n <= |used| && forall i :: s <= i < s + n ==> !used[i]
  }

  /** The lowest-starting run of n free pages starts at s. */
  ghost predicate FirstFit(used: seq<bool>, n: nat, s: nat) {
    Run(used, s, n) && forall r: nat :: r < s ==> !Run(used, r, n)
  }

  /** Pages s .. s + n - 1, as far as they exist, set to b. */
  function SetRange(used: seq<bool>, s: nat, n: nat, b: bool): seq<bool> {
    seq(|used|, i requires 0 <= i < |used| => if s <= i < s + n then b else used[i])
  }

  lemma {:induction false} CountSet(used: seq<bool>, i: nat, b: bool)
    requires i < |used|
    ensures CountFree(used[i := b]) == CountFree(used) + (if used[i] then 1 else 0) - (if b then 1 else 0)
    decreases |used|
  {
    var n := |used| - 1;
    if i == n {
      assert used[i := b][..n] == used[..n];
    } else {
      CountSet(used[..n], i, b);
      assert used[i := b][..n] == used[..n][i := b];
    }
  }

  lemma {:induction false} CountBounds(used: seq<bool>)
    ensures CountFree(used) <= |used|
    ensures CountFree(used) == 0 <==> forall i :: 0 <= i < |used| ==> used[i]
    decreases |used|
  {
    if used != [] { CountBounds(used[..|used| - 1]); }
  }

  lemma {:induction false} CountAllUsed(used: seq<bool>)
    requires forall i :: 0 <= i < |used| ==> used[i]
    ensures CountFree(used) == 0
  {
    CountBounds(used);
  }

  /** Taking n free pages lowers the count by n. */
  lemma {:induction false} CountTake(used: seq<bool>, s: nat, n: nat)
    requires Run(used, s, n)
    ensures CountFree(SetRange(used, s, n, true)) == CountFree(used) - n
    decreases n
  {
    if n == 0 {
      assert SetRange(used, s, 0, true) == used;
    } else {
      CountTake(used, s, n - 1);
      var u := SetRange(used, s, n - 1, true);
      CountSet(u, s + n - 1, true);
      assert SetRange(used, s, n, true) == u[s + n - 1 := true];
    }
  }

  lemma {:induction false} RunCounts(used: seq<bool>, s: nat, n: nat)
    requires Run(used, s, n)
    ensures n <= CountFree(used)
  {
    CountTake(used, s, n);
  }

  /** The first longest run of free pages. */
  ghost predicate LongestRun(used: seq<bool>, s: nat, n: nat) {
    && Run(used, s, n)
    && forall r: nat, m: nat :: Run(used, r, m) && m > 0 ==> m <= n && (m == n ==> s <= r)
  }

  /** The first free page, or the number of pages when there is none. */
  function FirstFree(used: seq<bool>): (r: nat)
    ensures r <= |used|
    ensures r < |used| ==> !used[r]
    ensures forall i :: 0 <= i < r ==> used[i]
  {
    if used == [] then 0
    else if !used[0] then 0 else 1 + FirstFree(used[1..])
  }

  lemma FirstFitOfOne(used: seq<bool>)
    ensures FirstFree(used) < |used| ==> FirstFit(used, 1, FirstFree(used))
    ensures FirstFree(used) == |used| ==> forall s: nat :: !Run(used, s, 1)
  {
    var f := FirstFree(used);
    forall s: nat | s < f ensures !Run(used, s, 1) { assert used[s]; }
    if f == |used| {
      forall s: nat ensures !Run(used, s, 1) { if s < |used| { assert used[s]; } }
    }
  }

  // ---- scanning ------------------------------------------------------------------

  /** After i pages of a scan, exactly the last `run` of them are free since the last used one. */
  ghost predicate Scanned(used: seq<bool>, i: nat, run: nat) {
    && run <= i <= |used|
    && (forall k :: i - run <= k < i ==> !used[k])
    && (i - run > 0 ==> used[i - run - 1])
  }

  ghost predicate NoneWithin(used: seq<bool>, n: nat, i: nat) {
    forall s: nat :: s + n <= i ==> !Run(used, s, n)
  }

  /** While the current run is shorter than n, no run of n pages ends inside the scanned part. */
  lemma ScanOn(used: seq<bool>, n: nat, i: nat, run: nat)
    requires i > 0 && Scanned(used, i, run) && run < n && NoneWithin(used, n, i - 1)
    ensures NoneWithin(used, n, i)
  {
    forall s: nat | s + n <= i ensures !Run(used, s, n) {
      if s + n == i { assert s <= i - run - 1 < s + n; }
    }
  }

  /** The first time the current run reaches n pages, it is the first fit. */
  lemma ScanFinds(used: seq<bool>, n: nat, i: nat)
    requires n > 0 && i > 0 && Scanned(used, i, n) && NoneWithin(used, n, i - 1)
    ensures FirstFit(used, n, i - n)
  {
  }

  /** The best run among those that end before the current run begins. */
  ghost predicate BestBefore(used: seq<bool>, limit: nat, s: nat, n: nat) {
    && (if n == 0 then s == 0 else s + n <= limit && Run(used, s, n))
    && forall r: nat, m: nat :: Run(used, r, m) && m > 0 && r + m <= limit ==> m <= n && (m == n ==> s <= r)
  }

  /** Closing the current run extends the best-so-far to the whole scanned part. */
  lemma CloseRun(used: seq<bool>, i: nat, run: nat, s: nat, n: nat)
    requires Scanned(used, i, run) && BestBefore(used, i - run, s, n)
    ensures var (s', n') := if run > n then ((i - run) as nat, run) else (s, n); BestBefore(used, i, s', n')
  {
    var (s', n') := if run > n then ((i - run) as nat, run) else (s, n);
    forall r: nat, m: nat | Run(used, r, m) && m > 0 && r + m <= i ensures m <= n' && (m == n' ==> s' <= r) {
      if r + m > i - run {
        if r < i - run { assert false; }
      }
    }
  }

  /** Nothing new ends before the current run while it grows or directly after a used page. */
  lemma KeepBest(used: seq<bool>, i: nat, s: nat, n: nat)
    requires i < |used| && used[i] && BestBefore(used, i, s, n)
    ensures BestBefore(used, i + 1, s, n)
  {
    forall r: nat, m: nat | Run(used, r, m) && m > 0 && r + m <= i + 1 ensures r + m <= i { }
  }

  lemma BestIsLongest(used: seq<bool>, s: nat, n: nat)
    requires BestBefore(used, |used|, s, n)
    ensures LongestRun(used, s, n)
  {
  }
}
