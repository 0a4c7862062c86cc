/** The request queue of one I/O worker as io.c keeps it: one array of entries, on which the free list and
    the in-flight list are threaded through `next` and `prev` indexes. Every method does what the
    corresponding step of the state machine in QueueModel does. */
module WorkQueue {
  import opened Counting
  import opened QueueModel
  import opened QueueRuns
  import QueueSweep
  import Wrappers

  // ---------- lists threaded through index arrays ----------

  ghost predicate Linked(next: seq<int>, list: seq<nat>, i: nat)
    requires i < |list|
  {
    list[i] < |next| && next[list[i]] == if i + 1 < |list| then list[i + 1] else -1
  }

  ghost predicate BackLinked(prev: seq<int>, list: seq<nat>, i: nat)
    requires i < |list|
  {
    list[i] < |prev| && prev[list[i]] == if i > 0 then list[i - 1] else -1
  }

  /** `next` leads through the list in order and ends with -1. */
  ghost predicate Chain(next: seq<int>, list: seq<nat>) {
    && (forall i :: 0 <= i < |list| ==> list[i] < |next|)
    && (forall i :: 0 <= i < |list| ==> Linked(next, list, i))
  }

  /** `prev` leads through the list backwards and ends with -1. */
  ghost predicate BackChain(prev: seq<int>, list: seq<nat>) {
    && (forall i :: 0 <= i < |list| ==> list[i] < |prev|)
    && (forall i :: 0 <= i < |list| ==> BackLinked(prev, list, i))
  }

  function HeadOf(list: seq<nat>): int {
    if list == [] then -1 else list[0]
  }

  /** The array after `e` has been linked in before position `k`. */
  function LinkNext(next: seq<int>, io: seq<nat>, k: nat, e: nat): seq<int>
    requires k <= |io| && e < |next| && forall i :: 0 <= i < |io| ==> io[i] < |next|
  {
    var a := next[e := if k < |io| then io[k] else -1];
    if k > 0 then a[io[k - 1] := e] else a
  }

  function LinkPrev(prev: seq<int>, io: seq<nat>, k: nat, e: nat): seq<int>
    requires k <= |io| && e < |prev| && forall i :: 0 <= i < |io| ==> io[i] < |prev|
  {
    var a := prev[e := if k > 0 then io[k - 1] else -1];
    if k < |io| then a[io[k] := e] else a
  }

  /** The assignments that link in `e`, for an entry whose links are -1. */
  lemma LinkedAt(next: seq<int>, prev: seq<int>, io: seq<nat>, k: nat, e: nat)
    requires k <= |io| && e < |next| == |prev| && forall i :: 0 <= i < |io| ==> io[i] < |next|
    requires next[e] == prev[e] == -1
    ensures io == [] ==> LinkNext(next, io, k, e) == next && LinkPrev(prev, io, k, e) == prev
    ensures k == 0 && io != [] ==> LinkNext(next, io, k, e) == next[e := io[0]] && LinkPrev(prev, io, k, e) == prev[io[0] := e]
    ensures 0 < k == |io| ==>
      LinkNext(next, io, k, e) == next[io[k - 1] := e] && LinkPrev(prev, io, k, e) == prev[e := io[k - 1]]
    ensures 0 < k < |io| ==>
      && LinkNext(next, io, k, e) == next[e := io[k]][io[k - 1] := e]
      && LinkPrev(prev, io, k, e) == prev[e := io[k - 1]][io[k] := e]
  {
  }

  lemma LinkedChain(next: seq<int>, io: seq<nat>, k: nat, e: nat)
    requires Chain(next, io) && NoDup(io) && e !in io && k <= |io| && e < |next|
    ensures Chain(LinkNext(next, io, k, e), Inserted(io, k, e))
  {
    var a, r := LinkNext(next, io, k, e), Inserted(io, k, e);
    forall i | 0 <= i < |r|
      ensures Linked(a, r, i)
    {
      if i < k {
        LinkedBefore(next, io, k, e, i);
      } else if i > k {
        LinkedBehind(next, io, k, e, i);
      }
    }
  }

  lemma LinkedBefore(next: seq<int>, io: seq<nat>, k: nat, e: nat, i: nat)
    requires Chain(next, io) && NoDup(io) && e !in io && k <= |io| && e < |next| && i < k
    ensures Linked(LinkNext(next, io, k, e), Inserted(io, k, e), i)
  {
    assert Linked(next, io, i) && io[i] in io && (i < k - 1 ==> io[i] != io[k - 1]);
  }

  lemma LinkedBehind(next: seq<int>, io: seq<nat>, k: nat, e: nat, i: nat)
    requires Chain(next, io) && NoDup(io) && e !in io && k <= |io| && e < |next| && k < i <= |io|
    ensures Linked(LinkNext(next, io, k, e), Inserted(io, k, e), i)
  {
    assert Linked(next, io, i - 1);
    assert Inserted(io, k, e)[i] == io[i - 1] && io[i - 1] in io && (k > 0 ==> io[k - 1] != io[i - 1]);
  }

  lemma LinkedBack(prev: seq<int>, io: seq<nat>, k: nat, e: nat)
    requires BackChain(prev, io) && NoDup(io) && e !in io && k <= |io| && e < |prev|
    ensures BackChain(LinkPrev(prev, io, k, e), Inserted(io, k, e))
  {
    var a, r := LinkPrev(prev, io, k, e), Inserted(io, k, e);
    forall i | 0 <= i < |r|
      ensures BackLinked(a, r, i)
    {
      if i < k {
        assert BackLinked(prev, io, i) && io[i] in io && (k < |io| ==> io[i] != io[k]);
      } else if i > k {
        assert BackLinked(prev, io, i - 1);
        assert r[i] == io[i - 1] && io[i - 1] in io && (i > k + 1 ==> io[k] != io[i - 1]);
      }
    }
  }

  lemma {:induction false} InsertPosSame(a: seq<Slot>, b: seq<Slot>, io: seq<nat>, latest: nat, target: nat)
    requires |a| == |b| && forall i :: 0 <= i < |io| ==> io[i] < |a| && a[io[i]] == b[io[i]]
    ensures InsertPos(a, io, latest, target) == InsertPos(b, io, latest, target)
  {
    if io != [] {
      InsertPosSame(a, b, io[..|io| - 1], latest, target);
    }
  }

  /** The array after the first `k` in-flight entries have been moved behind the free list. */
  function SpliceNext(next: seq<int>, free: seq<nat>, io: seq<nat>, k: nat): seq<int>
    requires 0 < k <= |io| && free != []
    requires forall i :: 0 <= i < |io| ==> io[i] < |next|
    requires forall i :: 0 <= i < |free| ==> free[i] < |next|
  {
    next[io[k - 1] := -1][free[|free| - 1] := io[0]]
  }

  lemma SplicedChains(next: seq<int>, free: seq<nat>, io: seq<nat>, k: nat)
    requires Chain(next, free) && Chain(next, io) && 0 < k <= |io| && free != []
    requires NoDup(free) && NoDup(io) && forall e :: e in free ==> e !in io
    ensures Chain(SpliceNext(next, free, io, k), free + io[..k])
    ensures Chain(SpliceNext(next, free, io, k), io[k..])
  {
    var a, f := SpliceNext(next, free, io, k), free + io[..k];
    forall i | 0 <= i < |f|
      ensures Linked(a, f, i)
    {
      if i < |free| {
        assert Linked(next, free, i) && free[i] in free;
        assert i < |free| - 1 ==> free[i] != free[|free| - 1];
        assert io[k - 1] in io;
      } else {
        assert Linked(next, io, i - |free|) && io[i - |free|] in io && free[|free| - 1] in free;
        assert i < |f| - 1 ==> io[i - |free|] != io[k - 1];
      }
    }
    forall i | 0 <= i < |io| - k
      ensures Linked(a, io[k..], i)
    {
      assert Linked(next, io, i + k) && io[i + k] in io && io[k - 1] != io[i + k];
      assert free[|free| - 1] in free;
    }
  }

  /** The heads and tails of the two lists. */
  datatype Ends = Ends(freeSeq: int, freeSeqEnd: int, ioSeq: int, ioSeqEnd: int)

  /** The arrays thread the two lists of the model; the `prev` fields of free entries are stale, and so is
      `ioSeqEnd` while nothing is in flight. */
  ghost predicate Threads(next: seq<int>, prev: seq<int>, ends: Ends, q: Queue) {
    && Partition(q) && |next| == |prev| == |q.slots|
    && Chain(next, q.free) && Chain(next, q.io) && BackChain(prev, q.io)
    && ends.freeSeq == q.free[0] && ends.freeSeqEnd == q.free[|q.free| - 1]
    && ends.ioSeq == HeadOf(q.io) && (q.io != [] ==> ends.ioSeqEnd == q.io[|q.io| - 1])
  }

  lemma SameLists(next: seq<int>, prev: seq<int>, ends: Ends, q: Queue, t: Queue)
    requires Threads(next, prev, ends, q) && (t.free, t.io, |t.slots|) == (q.free, q.io, |q.slots|)
    ensures Threads(next, prev, ends, t)
  {
    hide Chain, BackChain, NoDup;
  }

  /** The clock and the worker leave both lists alone. */
  lemma StepThreads(next: seq<int>, prev: seq<int>, ends: Ends, q: Queue, d: nat)
    requires Threads(next, prev, ends, q) && Inv(QueueSweep.Tick(q, d))
    ensures Threads(next, prev, ends, QueueSweep.Tick(q, d))
    ensures ends.ioSeq == HeadOf(q.io) && (q.worker.At? ==> q.worker.e < |q.slots|)
    ensures Threads(next, prev, ends, WorkerStep(QueueSweep.Tick(q, d)))
  {
    var t := QueueSweep.Tick(q, d);
    QueueSweep.WorkerStepInv(t);
    SameLists(next, prev, ends, q, t);
    SameLists(next, prev, ends, q, WorkerStep(t));
    hide Inv, Chain, BackChain, NoDup, Partition;
  }

  lemma InitThreads(n: nat, next: seq<int>, prev: seq<int>)
    requires n > 0 && |next| == |prev| == n
    requires forall j :: 0 <= j < n ==> next[j] == if j + 1 < n then j + 1 else -1
    ensures Inv(QueueSweep.Init(n)) && Threads(next, prev, Ends(0, n - 1, -1, -1), QueueSweep.Init(n))
  {
    QueueSweep.InitInv(n);
    var free := QueueSweep.Init(n).free;
    forall i | 0 <= i < |free|
      ensures Linked(next, free, i)
    {
    }
  }

  /** What a fresh entry must look like before it is linked in. */
  ghost predicate Detached(next: seq<int>, prev: seq<int>, ioSeq: int, ioSeqEnd: int, q: Queue, e: nat) {
    && NoDup(q.io) && e !in q.io && e < |q.slots| == |next| == |prev|
    && (forall i :: 0 <= i < |q.io| ==> q.io[i] < |q.slots|)
    && Chain(next, q.io) && BackChain(prev, q.io) && next[e] == prev[e] == -1
    && ioSeq == HeadOf(q.io) && (q.io != [] ==> ioSeqEnd == q.io[|q.io| - 1])
  }

  lemma DetachFirst(next: seq<int>, prev: seq<int>, ends: Ends, q: Queue)
    requires Threads(next, prev, ends, q) && CanEnqueue(q)
    ensures q.free[0] < |next| == |prev|
    ensures Detached(next[q.free[0] := -1], prev[q.free[0] := -1], ends.ioSeq, ends.ioSeqEnd, q, q.free[0])
  {
    var e := q.free[0];
    FirstFree(q);
    var a, b := next[e := -1], prev[e := -1];
    forall i | 0 <= i < |q.io|
      ensures Linked(a, q.io, i) && BackLinked(b, q.io, i)
    {
      assert Linked(next, q.io, i) && BackLinked(prev, q.io, i) && q.io[i] in q.io;
    }
  }

  lemma DetachedAt(next: seq<int>, prev: seq<int>, ioSeq: int, ioSeqEnd: int, q: Queue, e: nat, k: nat)
    requires Detached(next, prev, ioSeq, ioSeqEnd, q, e) && k <= |q.io|
    ensures e < |q.slots| == |next| == |prev| && next[e] == prev[e] == -1
    ensures forall i :: 0 <= i < |q.io| ==> q.io[i] < |q.slots|
    ensures (k > 0 ==> q.io[k - 1] != e) && (k < |q.io| ==> q.io[k] != e)
    ensures k > 0 ==> next[q.io[k - 1]] == if k < |q.io| then q.io[k] else -1
    ensures ioSeq == HeadOf(q.io) && (q.io != [] ==> ioSeqEnd == q.io[|q.io| - 1])
  {
    assert k > 0 ==> Linked(next, q.io, k - 1);
  }

  lemma EnqueueSamePos(q: Queue, target: nat, internalOp: bool)
    requires Partition(q) && CanEnqueue(q)
    ensures q.free[0] < |q.slots|
    ensures InsertPos(Enqueue(q, target, internalOp).slots, q.io, q.latest, target) ==
            InsertPos(q.slots, q.io, q.latest, target)
  {
    FirstFree(q);
    var t := Enqueue(q, target, internalOp);
    hide InsertPos;
    forall i | 0 <= i < |q.io|
      ensures q.slots[q.io[i]] == t.slots[q.io[i]]
    {
      assert q.io[i] in q.io;
    }
    InsertPosSame(q.slots, t.slots, q.io, q.latest, target);
  }

  /** Linking in the first free entry does not touch the rest of the free list. */
  lemma RestOfFree(next: seq<int>, q: Queue, k: nat)
    requires Partition(q) && CanEnqueue(q) && Chain(next, q.free) && k <= |q.io| && |next| == |q.slots|
    ensures q.free[0] < |next|
    ensures Chain(LinkNext(next[q.free[0] := -1], q.io, k, q.free[0]), q.free[1..])
  {
    FirstFree(q);
    var a := LinkNext(next[q.free[0] := -1], q.io, k, q.free[0]);
    forall i | 0 <= i < |q.free| - 1
      ensures Linked(a, q.free[1..], i)
    {
      assert Linked(next, q.free, i + 1);
      assert q.free[i + 1] in q.free[1..];
      assert k > 0 ==> q.io[k - 1] in q.io;
    }
  }

  /** Linking the detached entry in at the insertion point gives the lists of `Enqueue`. */
  lemma EnqueueThreads(next: seq<int>, prev: seq<int>, ends: Ends, q: Queue, target: nat, internalOp: bool)
    requires Threads(next, prev, ends, q) && CanEnqueue(q)
    requires q.free[0] < |next| == |prev|
    requires Detached(next[q.free[0] := -1], prev[q.free[0] := -1], ends.ioSeq, ends.ioSeqEnd, q, q.free[0])
    ensures var e, k, t := q.free[0], InsertPos(q.slots, q.io, q.latest, target), Enqueue(q, target, internalOp);
      && k == InsertPos(t.slots, q.io, q.latest, target)
      && Threads(LinkNext(next[e := -1], q.io, k, e), LinkPrev(prev[e := -1], q.io, k, e),
                 Ends(q.free[1], ends.freeSeqEnd, if k > 0 then q.io[0] else e, if k < |q.io| then q.io[|q.io| - 1] else e), t)
  {
    var e, k, t := q.free[0], InsertPos(q.slots, q.io, q.latest, target), Enqueue(q, target, internalOp);
    EnqueuePartition(q, target, internalOp);
    EnqueueSamePos(q, target, internalOp);
    RestOfFree(next, q, k);
    hide InsertPos;
    LinkedChain(next[e := -1], q.io, k, e);
    LinkedBack(prev[e := -1], q.io, k, e);
    hide Chain, BackChain, LinkNext, LinkPrev;
    assert t.io == Inserted(q.io, k, e);
  }

  /** The `prev` array after the first `k` entries have been moved behind the free list. */
  function SplicePrev(prev: seq<int>, freeEnd: int, io: seq<nat>, k: nat): seq<int>
    requires 0 < k <= |io| && forall i :: 0 <= i < |io| ==> io[i] < |prev|
  {
    var a := if k < |io| then prev[io[k] := -1] else prev;
    a[io[0] := freeEnd]
  }

  /** Splicing the completed prefix gives the lists of `Reclaim`. */
  lemma ReclaimThreads(next: seq<int>, prev: seq<int>, ends: Ends, q: Queue)
    requires Threads(next, prev, ends, q)
    ensures var k := ReclaimLen(q.slots, q.io, q.latest);
      k > 0 ==>
        Threads(SpliceNext(next, q.free, q.io, k), SplicePrev(prev, ends.freeSeqEnd, q.io, k),
                Ends(ends.freeSeq, q.io[k - 1], HeadOf(q.io[k..]), ends.ioSeqEnd), Reclaim(q))
    ensures var k := ReclaimLen(q.slots, q.io, q.latest); k == 0 ==> Reclaim(q) == q
  {
    hide ReclaimLen;
    var k, t := ReclaimLen(q.slots, q.io, q.latest), Reclaim(q);
    ReclaimPartition(q);
    if k == 0 {
      assert t.free == q.free && t.io == q.io;
    } else {
      SplicedChains(next, q.free, q.io, k);
      ReclaimBack(prev, ends.freeSeqEnd, q.io, k);
    }
  }

  /** The entries of both lists are in the arrays, and the ends name the first and last ones. */
  lemma ListsInArrays(next: seq<int>, prev: seq<int>, ends: Ends, q: Queue)
    requires Threads(next, prev, ends, q)
    ensures q.free != [] && |next| == |prev| && ends.freeSeqEnd == q.free[|q.free| - 1] && ends.ioSeq == HeadOf(q.io)
    ensures forall i :: 0 <= i < |q.io| ==> q.io[i] < |next| && q.io[i] < |q.slots|
    ensures forall i :: 0 <= i < |q.free| ==> q.free[i] < |next|
  {
  }

  /** What follows the first `k` in-flight entries. */
  lemma LinkBehind(next: seq<int>, prev: seq<int>, ends: Ends, q: Queue, k: nat)
    requires Threads(next, prev, ends, q) && 0 < k <= |q.io|
    ensures q.io[k - 1] < |next| && next[q.io[k - 1]] == HeadOf(q.io[k..])
  {
    assert Linked(next, q.io, k - 1);
  }

  /** The entries that stay keep their predecessors, and the first of them has none. */
  lemma ReclaimBack(prev: seq<int>, tail: int, io: seq<nat>, k: nat)
    requires NoDup(io) && 0 < k <= |io| && (forall i :: 0 <= i < |io| ==> io[i] < |prev|)
    requires forall i :: 0 <= i < |io| ==> BackLinked(prev, io, i)
    ensures forall i :: 0 <= i < |io| - k ==> BackLinked(SplicePrev(prev, tail, io, k), io[k..], i)
  {
    var b := SplicePrev(prev, tail, io, k);
    forall i | 0 <= i < |io| - k
      ensures BackLinked(b, io[k..], i)
    {
      assert BackLinked(prev, io, i + k) && io[i + k] != io[0] && (i > 0 ==> io[i + k] != io[k]);
    }
  }

  /** Following `next` is what the model calls moving on. */
  lemma NextIsNextOf(next: seq<int>, prev: seq<int>, ends: Ends, q: Queue, e: nat)
    requires Threads(next, prev, ends, q) && e < |q.slots|
    ensures e < |next| && next[e] == NextOf(q, e)
  {
    if e in q.io {
      assert Linked(next, q.io, IndexOf(q.io, e));
    } else {
      assert Linked(next, q.free, IndexOf(q.free, e));
    }
  }

  // ---------- the queue ----------

  class WorkerQueue {
    const slots: array<Slot>
    const next: array<int>
    const prev: array<int>
    var freeSeq: int
    var freeSeqEnd: int
    var ioSeq: int
    var ioSeqEnd: int
    var latest: nat
    var worker: Worker
    ghost var q: Queue

    ghost predicate Valid()
      reads this, slots, next, prev
    {
      Inv(q) && Tied()
    }

    ghost predicate Tied()
      reads this, slots, next, prev
    {
      && next != prev && next.Length == prev.Length == slots.Length
      && slots[..] == q.slots && latest == q.latest && worker == q.worker
      && Threads(next[..], prev[..], Ends(freeSeq, freeSeqEnd, ioSeq, ioSeqEnd), q)
    }

    constructor (n: nat)
      requires n > 0
      ensures Valid() && fresh(slots) && fresh(next) && fresh(prev)
      ensures q == QueueSweep.Init(n)
    {
      hide Inv, Threads;
      slots := new Slot[n](_ => Slot(0, 0, false, false, false));
      next := new int[n];
      prev := new int[n];
      freeSeq := 0;
      freeSeqEnd := n - 1;
      ioSeq := -1;
      ioSeqEnd := -1;
      latest := 0;
      worker := Idle;
      q := QueueSweep.Init(n);
      new;
      var i := 0;
      while i < n
        invariant 0 <= i <= n
        invariant forall j :: 0 <= j < i ==> next[j] == j + 1
        modifies next, prev
      {
        next[i] := i + 1;
        prev[i] := i - 1;
        i := i + 1;
      }
      next[n - 1] := -1;
      assert slots[..] == q.slots;
      InitThreads(n, next[..], prev[..]);
    }

    /** `__allocate_work_queue_entry`: -1 when the free list is down to its last entry. */
    method Allocate() returns (e: int)
      requires Valid()
      modifies this`freeSeq
      ensures e == if CanEnqueue(q) then q.free[0] else -1
      ensures freeSeq == if CanEnqueue(q) then q.free[1] else old(freeSeq)
    {
      e := freeSeq;
      assert Linked(next[..], q.free, 0);
      if !(0 <= next[e] < next.Length) {
        return -1;
      }
      freeSeq := next[e];
    }

    /** The search loop of `__insert_req_sorted`: the entry to insert after, -1 for the head. */
    method FindPlace(ghost entry: nat, target: nat) returns (curr: int)
      requires |q.slots| == slots.Length && q.io != []
      requires Detached(next[..], prev[..], ioSeq, ioSeqEnd, q, entry)
      ensures var k := InsertPos(slots[..], q.io, latest, target); curr == if k > 0 then q.io[k - 1] else -1
    {
      curr := ioSeqEnd;
      ghost var k := |q.io|;
      assert q.io[..k] == q.io;
      while curr != -1
        invariant 0 <= k <= |q.io| && curr == if k > 0 then q.io[k - 1] else -1
        invariant InsertPos(slots[..], q.io, latest, target) == InsertPos(slots[..], q.io[..k], latest, target)
        decreases k
      {
        if slots[curr].target <= latest {
          break;
        }
        if slots[curr].target <= target {
          break;
        }
        assert q.io[..k][..k - 1] == q.io[..k - 1];
        assert BackLinked(prev[..], q.io, k - 1);
        curr := prev[curr];
        k := k - 1;
      }
    }

    /** `__insert_req_sorted`: links the entry into the in-flight list. */
    method InsertSorted(entry: nat, target: nat)
      requires next != prev && |q.slots| == slots.Length
      requires Detached(next[..], prev[..], ioSeq, ioSeqEnd, q, entry)
      modifies this`ioSeq, this`ioSeqEnd, next, prev
      ensures var k, io := InsertPos(slots[..], q.io, latest, target), q.io;
        && next[..] == LinkNext(old(next[..]), io, k, entry)
        && prev[..] == LinkPrev(old(prev[..]), io, k, entry)
        && ioSeq == (if k > 0 then io[0] else entry)
        && ioSeqEnd == (if k < |io| then io[|io| - 1] else entry)
    {
      ghost var k, n, p := InsertPos(slots[..], q.io, latest, target), next[..], prev[..];
      hide Detached, InsertPos, LinkNext, LinkPrev;
      DetachedAt(n, p, ioSeq, ioSeqEnd, q, entry, k);
      LinkedAt(n, p, q.io, k, entry);
      if ioSeq == -1 {
        ioSeq := entry;
        ioSeqEnd := entry;
      } else {
        var curr := FindPlace(entry, target);
        if curr == -1 {
          prev[ioSeq] := entry;
          assert prev[..] == p[ioSeq := entry];
          next[entry] := ioSeq;
          assert next[..] == n[entry := ioSeq];
          ioSeq := entry;
        } else if next[curr] == -1 {
          prev[entry] := curr;
          assert prev[..] == p[entry := curr];
          ioSeqEnd := entry;
          next[curr] := entry;
          assert next[..] == n[curr := entry];
        } else {
          prev[entry] := curr;
          assert prev[..] == p[entry := curr];
          next[entry] := next[curr];
          assert next[..] == n[entry := n[curr]];
          prev[next[entry]] := entry;
          assert prev[..] == p[entry := curr][n[curr] := entry];
          next[curr] := entry;
          assert next[..] == n[entry := n[curr]][curr := entry];
        }
      }
      assert k == InsertPos(slots[..], q.io, latest, target);
    }

    /** `__enqueue_io_req` and `schedule_internal_operation`: without a second free entry the request is
        dropped. Requests are numbered in the order in which they are accepted. */
    method EnqueueIoReq(rid: nat, target: nat, internalOp: bool)
      requires Valid() && rid == |q.targets|
      modifies this, slots, next, prev
      ensures Valid()
      ensures q == if CanEnqueue(old(q)) then Enqueue(old(q), target, internalOp) else old(q)
    {
      hide Partition, Sorted, FreeTail, CursorOk, InFlight, LogOk, Covered, DataOk, InsertPos, Threads, Detached;
      ghost var ends := Ends(freeSeq, freeSeqEnd, ioSeq, ioSeqEnd);
      ghost var next0, prev0 := next[..], prev[..];
      var entry := Allocate();
      if entry == -1 {
        return;
      }
      DetachFirst(next0, prev0, ends, q);
      EnqueueThreads(next0, prev0, ends, q, target, internalOp);
      EnqueueInv(q, target, internalOp);
      slots[entry] := Slot(rid, target, false, internalOp, internalOp);
      prev[entry] := -1;
      next[entry] := -1;
      assert next[..] == next0[entry := -1] && prev[..] == prev0[entry := -1];
      InsertSorted(entry, target);
      q := Enqueue(q, target, internalOp);
      assert slots[..] == q.slots;
    }

    /** The loop of `__reclaim_completed_reqs`: the last entry of the completed prefix, -1 if there is none. */
    method LastCompleted() returns (last: int)
      requires Tied()
      ensures var k := ReclaimLen(q.slots, q.io, latest); last == if k > 0 then q.io[k - 1] else -1
    {
      hide NoDup, BackChain;
      last := -1;
      var curr := ioSeq;
      ghost var k := 0;
      while curr != -1
        invariant 0 <= k <= |q.io|
        invariant curr == if k < |q.io| then q.io[k] else -1
        invariant last == if k > 0 then q.io[k - 1] else -1
        invariant ReclaimLen(q.slots, q.io, latest) == k + ReclaimLen(q.slots, q.io[k..], latest)
        decreases |q.io| - k
      {
        var w := slots[curr];
        if !(w.completed && w.copied && w.target <= latest) {
          break;
        }
        assert Linked(next[..], q.io, k);
        assert q.io[k..][1..] == q.io[k + 1..];
        last := curr;
        curr := next[curr];
        k := k + 1;
      }
    }

    /** `__reclaim_completed_reqs` for this worker: the completed prefix goes behind the free list. */
    method ReclaimCompletedReqs()
      requires Valid()
      modifies this, next, prev
      ensures Valid()
      ensures q == Reclaim(old(q))
    {
      hide Inv, Threads, Partition, ReclaimLen;
      var first := ioSeq;
      var last := LastCompleted();
      ListsInArrays(next[..], prev[..], Ends(freeSeq, freeSeqEnd, ioSeq, ioSeqEnd), q);
      ghost var k := ReclaimLen(q.slots, q.io, latest);
      ReclaimInv(q);
      ReclaimThreads(next[..], prev[..], Ends(freeSeq, freeSeqEnd, ioSeq, ioSeqEnd), q);
      if last != -1 {
        LinkBehind(next[..], prev[..], Ends(freeSeq, freeSeqEnd, ioSeq, ioSeqEnd), q, k);
        ioSeq := next[last];
        if next[last] != -1 {
          prev[next[last]] := -1;
        }
        next[last] := -1;
        prev[first] := freeSeqEnd;
        next[freeSeqEnd] := first;
        freeSeqEnd := last;
        assert next[..] == SpliceNext(old(next[..]), q.free, q.io, k);
        assert prev[..] == SplicePrev(old(prev[..]), old(freeSeqEnd), q.io, k);
      }
      q := Reclaim(q);
    }

    /** `curr = w->next`, whichever list the entry is in by now. */
    method NextEntry(e: nat) returns (curr: int)
      requires Tied() && e < |q.slots|
      ensures -1 <= curr == NextOf(q, e)
    {
      NextIsNextOf(next[..], prev[..], Ends(freeSeq, freeSeqEnd, ioSeq, ioSeqEnd), q, e);
      curr := next[e];
    }

    /** One atomic step of the sweep of `nvmev_io_worker`, at a time when the clock reads `now`, and the data or the
        completion that it moves or posts. */
    method Work(now: nat) returns (event: Wrappers.Option<Event>)
      requires Valid() && q.clock <= now
      modifies this, slots
      ensures Valid()
      ensures q == WorkerStep(QueueSweep.Tick(old(q), now - old(q).clock))
      ensures q.log == old(q).log + if event.Some? then [event.value] else []
    {
      event := Wrappers.None;
      hide Inv, Threads, NextOf;
      QueueSweep.TickInv(q, now - q.clock);
      StepThreads(next[..], prev[..], Ends(freeSeq, freeSeqEnd, ioSeq, ioSeqEnd), q, now - q.clock);
      q := QueueSweep.Tick(q, now - q.clock);
      QueueSweep.WorkerStepInv(q);
      match worker {
        case Idle =>
          worker := if ioSeq == -1 then Idle else At(ioSeq, Test, now);
        case At(e, Test, _) =>
          latest := now;
          var phase := if slots[e].completed then Move else if !slots[e].copied then Copy else Finish;
          worker := At(e, phase, now);
        case At(e, Copy, t) =>
          if !slots[e].internalOp {
            event := Wrappers.Some(Copied(slots[e].rid));
          }
          slots[e] := slots[e].(copied := true);
          worker := At(e, Finish, t);
        case At(e, Finish, t) =>
          if slots[e].target <= t {
            event := Wrappers.Some(Completed(slots[e].rid, t));
            slots[e] := slots[e].(completed := true);
          }
          worker := At(e, Move, t);
        case At(e, Move, t) =>
          var curr := NextEntry(e);
          worker := if curr == -1 then Idle else At(curr, Test, t);
      }
      q := WorkerStep(q);
    }
  }
}
