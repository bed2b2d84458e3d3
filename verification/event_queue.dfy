/** The event queue of src/sched_evq.c: a bounded binary min-heap updated in place, one call at a time. */
module EventQueue {
  import opened Words
  import opened Tasks
  import opened EventHeap
  import opened Options

  class Queue {
    const heap: array<Entry>
    var count: nat
    var nextSeq: nat  // 32-bit word

    ghost function Frame(): set<object> {
      {this, heap}
    }

    ghost predicate Valid()
      reads this, heap
    {
      count <= heap.Length && nextSeq < TWO32 && EvqInv(heap[..count])
    }

    ghost function Entries(): seq<Entry>
      requires count <= heap.Length
      reads this, heap
    {
      heap[..count]
    }

    constructor (cap: nat)
      ensures fresh(heap) && heap.Length == cap && Valid() && Entries() == [] && nextSeq == 0
    {
      heap := new Entry[cap](_ => Entry(0, Task(0, 0, 0, 0, 0, 0, 0, 0, 0, 0)));
      count, nextSeq := 0, 0;
    }

    method HeapSiftUp(start: nat)
      requires start < count <= heap.Length
      modifies heap
      ensures Entries() == SiftUp(old(Entries()), start)
    {
      hide SiftUp;
      var idx: nat := start;
      while idx > 0
        invariant idx < count
        invariant SiftUp(heap[..count], idx) == SiftUp(old(heap[..count]), start)
      {
        var parent := (idx - 1) / 2;
        SiftUpOnce(heap[..count], idx);
        if heap[idx].key < heap[parent].key {
          Exchange(idx, parent);
          idx := parent;
        } else {
          break;
        }
      }
      SiftUpOnce(heap[..count], idx);
    }

    /** Two entries change places. */
    method Exchange(i: nat, j: nat)
      requires i < count <= heap.Length && j < count
      modifies heap
      ensures heap[..count] == Swap(old(heap[..count]), i, j)
    {
      heap[i], heap[j] := heap[j], heap[i];
    }

    method HeapSiftDown(start: nat)
      requires start < count <= heap.Length
      modifies heap
      ensures Entries() == SiftDown(old(Entries()), start)
    {
      hide SiftDown, Swap;
      var idx := start;
      while true
        invariant idx < count
        invariant SiftDown(heap[..count], idx) == SiftDown(old(heap[..count]), start)
        decreases count - idx
      {
        var smallest := idx;
        var left, right := 2 * idx + 1, 2 * idx + 2;
        if left < count && heap[left].key < heap[smallest].key { smallest := left; }
        if right < count && heap[right].key < heap[smallest].key { smallest := right; }
        SiftDownOnce(heap[..count], idx, left, right, smallest);
        if smallest != idx {
          Exchange(idx, smallest);
          idx := smallest;
        } else {
          break;
        }
      }
    }

    /** gmk_evq_push: fails exactly when full; otherwise stores the task under the next serial. */
    method Insert(task: Task) returns (ok: bool)
      requires Valid()
      modifies this, heap
      ensures Valid()
      ensures ok <==> old(count) < heap.Length
      ensures Entries() == if ok then Push(old(Entries()), task, old(nextSeq)) else old(Entries())
      ensures multiset(Entries()) == multiset(old(Entries())) + (if ok then multiset{NewEntry(task, old(nextSeq))} else multiset{})
      ensures nextSeq == if ok then Wrap(old(nextSeq) + 1) else old(nextSeq)
    {
      hide EvqInv, Key;
      if count >= heap.Length { return false; }
      PushKeeps(Entries(), task, nextSeq);
      var serial, idx := nextSeq, count;
      nextSeq := Wrap(nextSeq + 1);
      count := count + 1;
      heap[idx] := Entry(Key(task, serial), task.(serial := serial));
      assert Entries() == old(Entries()) + [NewEntry(task, serial)];
      HeapSiftUp(idx);
      return true;
    }

    /** Moves the last entry to the root and sifts it down. */
    method RemoveRoot()
      requires 0 < count <= heap.Length
      modifies this`count, heap
      ensures count == old(count) - 1 && Entries() == Remove(old(Entries()))
    {
      count := count - 1;
      if count > 0 {
        heap[0] := heap[count];
        assert Entries() == old(Entries())[..count][0 := old(Entries())[count]];
        HeapSiftDown(0);
      }
    }

    /** gmk_evq_pop_due: takes a stored event of least key, and is refused exactly when none is due. */
    method PopDue(tick: nat) returns (r: Option<Task>)
      requires Valid()
      modifies this, heap
      ensures Valid() && nextSeq == old(nextSeq)
      ensures r.None? <==> forall e :: e in old(Entries()) ==> Tick(e.task) > tick
      ensures r.None? ==> Entries() == old(Entries())
      ensures r.Some? ==> old(Entries()) != [] && r.value == old(Entries())[0].task && Entries() == Remove(old(Entries()))
      ensures r.Some? ==> multiset(Entries()) == multiset(old(Entries())) - multiset{old(Entries())[0]}
      ensures r.Some? ==> forall e :: e in old(Entries()) ==> old(Entries())[0].key <= e.key && Tick(r.value) <= Tick(e.task)
    {
      hide Remove;
      RefusedIffNoneDue(Entries(), tick);
      if count == 0 { return None; }
      if heap[0].key / TWO32 > tick { return None; }
      Popped(Entries());
      r := Some(heap[0].task);
      RemoveRoot();
    }

    lemma Popped(s: seq<Entry>)
      requires EvqInv(s) && s != []
      ensures EvqInv(Remove(s)) && multiset(Remove(s)) == multiset(s) - multiset{s[0]}
      ensures forall e :: e in s ==> s[0].key <= e.key
    {
      RemoveKeeps(s);
      RootBefore(s);
    }
  }
}
