/** Every interleaving of dispatcher and worker steps keeps the queue invariant. */
module QueueRuns {
  import opened Arith
  import opened Counting
  import opened QueueModel

  // ---------- enqueueing ----------

  /** The insertion point separates the entries that are due or not later from the later ones. */
  lemma {:induction false} InsertPosSplits(slots: seq<Slot>, io: seq<nat>, latest: nat, target: nat)
    requires forall i :: 0 <= i < |io| ==> io[i] < |slots|
    ensures var k := InsertPos(slots, io, latest, target);
      && (forall i :: k <= i < |io| ==> slots[io[i]].target > latest && slots[io[i]].target > target)
      && (k > 0 ==> slots[io[k - 1]].target <= latest || slots[io[k - 1]].target <= target)
  {
    if io != [] {
      var t := slots[io[|io| - 1]].target;
      if !(t <= latest || t <= target) {
        InsertPosSplits(slots, io[..|io| - 1], latest, target);
      }
    }
  }

  function Inserted(io: seq<nat>, k: nat, e: nat): (r: seq<nat>)
    requires k <= |io|
    ensures |r| == |io| + 1
    ensures forall i :: 0 <= i < |r| ==> r[i] == if i < k then io[i] else if i == k then e else io[i - 1]
  {
    io[..k] + [e] + io[k..]
  }

  lemma InsertedMembers(io: seq<nat>, k: nat, e: nat)
    requires k <= |io| && NoDup(io) && e !in io
    ensures NoDup(Inserted(io, k, e))
    ensures forall x :: x in Inserted(io, k, e) <==> x in io || x == e
  {
    var r := Inserted(io, k, e);
    forall x | x in io
      ensures x in r
    {
      var i :| 0 <= i < |io| && io[i] == x;
      assert r[if i < k then i else i + 1] == x;
    }
    assert r[k] == e;
  }

  lemma FirstFree(q: Queue)
    requires Partition(q)
    ensures q.free[0] < |q.slots| && q.free[0] !in q.io && q.free[0] !in q.free[1..]
    ensures forall x :: x in q.free <==> x in q.free[1..] || x == q.free[0]
  {
    assert q.free == [q.free[0]] + q.free[1..];
    assert q.free[0] in q.free;
  }

  lemma EnqueuePartition(q: Queue, target: nat, internalOp: bool)
    requires Partition(q) && CanEnqueue(q)
    ensures q.free[0] < |q.slots|
    ensures Partition(Enqueue(q, target, internalOp))
    ensures forall x :: x in Enqueue(q, target, internalOp).io <==> x in q.io || x == q.free[0]
  {
    FirstFree(q);
    InsertedMembers(q.io, InsertPos(q.slots, q.io, q.latest, target), q.free[0]);
  }

  ghost predicate Ordered(times: seq<nat>, latest: nat) {
    forall i, j :: 0 <= i < j < |times| ==> Max(times[i], latest) <= Max(times[j], latest)
  }

  /** From position `k` on the times are later than both `target` and `latest`; the one before is not. */
  ghost predicate LaterFrom(a: seq<nat>, k: nat, target: nat, latest: nat) {
    && k <= |a|
    && (forall i :: k <= i < |a| ==> a[i] > latest && a[i] > target)
    && (k > 0 ==> a[k - 1] <= latest || a[k - 1] <= target)
  }

  lemma InsertOrdered(a: seq<nat>, b: seq<nat>, k: nat, target: nat, latest: nat)
    requires Ordered(a, latest) && PutIn(a, b, k, target) && LaterFrom(a, k, target, latest)
    ensures Ordered(b, latest)
  {
    forall i, j | 0 <= i < j < |b|
      ensures Max(b[i], latest) <= Max(b[j], latest)
    {
      assert b[j] == if j < k then a[j] else if j == k then target else a[j - 1];
      if i < k && j < k {
        assert Max(a[i], latest) <= Max(a[j], latest);
      } else if i < k && j == k {
        assert i == k - 1 || Max(a[i], latest) <= Max(a[k - 1], latest);
      } else if i < k {
        assert Max(a[i], latest) <= Max(a[j - 1], latest);
      } else if i == k {
        assert a[j - 1] > target;
      } else {
        assert Max(a[i - 1], latest) <= Max(a[j - 1], latest);
      }
    }
  }

  function Targets(slots: seq<Slot>, io: seq<nat>): (r: seq<nat>)
    requires forall i :: 0 <= i < |io| ==> io[i] < |slots|
    ensures |r| == |io| && forall i :: 0 <= i < |r| ==> r[i] == slots[io[i]].target
  {
    seq(|io|, i requires 0 <= i < |io| => slots[io[i]].target)
  }

  lemma OrderedIsSorted(q: Queue)
    requires Partition(q) && Ordered(Targets(q.slots, q.io), q.latest)
    ensures Sorted(q)
  {
    var a := Targets(q.slots, q.io);
    forall i, j | 0 <= i < j < |q.io|
      ensures Max(q.slots[q.io[i]].target, q.latest) <= Max(q.slots[q.io[j]].target, q.latest)
    {
      assert Max(a[i], q.latest) <= Max(a[j], q.latest);
    }
  }

  lemma SortedIsOrdered(q: Queue)
    requires Partition(q) && Sorted(q)
    ensures Ordered(Targets(q.slots, q.io), q.latest)
  {
  }

  /** `b` is `a` with `target` put in before position `k`. */
  ghost predicate PutIn(a: seq<nat>, b: seq<nat>, k: nat, target: nat) {
    k <= |a| && |b| == |a| + 1 &&
    forall i :: 0 <= i < |b| ==> b[i] == if i < k then a[i] else if i == k then target else a[i - 1]
  }

  lemma EnqueueTargets(q: Queue, target: nat, internalOp: bool)
    requires Partition(q) && CanEnqueue(q)
    requires q.free[0] < |q.slots| && Partition(Enqueue(q, target, internalOp))
    ensures var t := Enqueue(q, target, internalOp);
      PutIn(Targets(q.slots, q.io), Targets(t.slots, t.io), InsertPos(q.slots, q.io, q.latest, target), target)
  {
    FirstFree(q);
    var e, k := q.free[0], InsertPos(q.slots, q.io, q.latest, target);
    var t := Enqueue(q, target, internalOp);
    assert t.io == Inserted(q.io, k, e);
    hide InsertPos;
    forall i | 0 <= i < |q.io|
      ensures t.slots[q.io[i]] == q.slots[q.io[i]]
    {
      assert q.io[i] in q.io;
    }
  }

  lemma SortedByTargets(q: Queue, t: Queue, k: nat, target: nat)
    requires Partition(q) && Partition(t) && Sorted(q) && t.latest == q.latest
    requires PutIn(Targets(q.slots, q.io), Targets(t.slots, t.io), k, target)
    requires LaterFrom(Targets(q.slots, q.io), k, target, q.latest)
    ensures Sorted(t)
  {
    SortedIsOrdered(q);
    InsertOrdered(Targets(q.slots, q.io), Targets(t.slots, t.io), k, target, q.latest);
    OrderedIsSorted(t);
  }

  lemma InsertPosLater(q: Queue, target: nat)
    requires Partition(q)
    ensures LaterFrom(Targets(q.slots, q.io), InsertPos(q.slots, q.io, q.latest, target), target, q.latest)
  {
    InsertPosSplits(q.slots, q.io, q.latest, target);
  }

  lemma EnqueueSorted(q: Queue, target: nat, internalOp: bool)
    requires Partition(q) && Sorted(q) && CanEnqueue(q)
    requires q.free[0] < |q.slots| && Partition(Enqueue(q, target, internalOp))
    ensures Sorted(Enqueue(q, target, internalOp))
  {
    hide Sorted, InsertPos, LaterFrom, PutIn;
    EnqueueTargets(q, target, internalOp);
    InsertPosLater(q, target);
    SortedByTargets(q, Enqueue(q, target, internalOp), InsertPos(q.slots, q.io, q.latest, target), target);
  }

  lemma EnqueueInFlight(q: Queue, target: nat, internalOp: bool)
    requires Partition(q) && InFlight(q) && LogOk(q.log, q.targets, q.clock) && CanEnqueue(q)
    requires q.free[0] < |q.slots| && Partition(Enqueue(q, target, internalOp))
    ensures InFlight(Enqueue(q, target, internalOp))
  {
    FirstFree(q);
    var e, k := q.free[0], InsertPos(q.slots, q.io, q.latest, target);
    var t := Enqueue(q, target, internalOp);
    assert t.io == Inserted(q.io, k, e);
    NotLogged(q);
    hide Logged;
    forall i | 0 <= i < |t.io|
      ensures SlotOk(t.slots[t.io[i]], t.targets, t.log, t.latest)
    {
      if i != k {
        assert SlotOk(q.slots[q.io[if i < k then i else i - 1]], q.targets, q.log, q.latest);
      }
    }
  }

  lemma EnqueueCovered(q: Queue, target: nat, internalOp: bool)
    requires Partition(q) && Covered(q) && CanEnqueue(q)
    requires q.free[0] < |q.slots| && Partition(Enqueue(q, target, internalOp))
    ensures Covered(Enqueue(q, target, internalOp))
  {
    FirstFree(q);
    var e := q.free[0];
    var t := Enqueue(q, target, internalOp);
    EnqueuePartition(q, target, internalOp);
    forall rid | 0 <= rid < |t.targets|
      ensures Logged(t.log, rid) || exists x :: Holds(t, x, rid)
    {
      if rid == |q.targets| {
        assert Holds(t, e, rid);
      } else if !Logged(q.log, rid) {
        var x :| Holds(q, x, rid);
        assert Holds(t, x, rid);
      }
    }
  }

  lemma EnqueueFreeTail(q: Queue, target: nat, internalOp: bool)
    requires Partition(q) && FreeTail(q) && CanEnqueue(q)
    requires q.free[0] < |q.slots| && Partition(Enqueue(q, target, internalOp))
    ensures FreeTail(Enqueue(q, target, internalOp))
  {
    FirstFree(q);
    var t := Enqueue(q, target, internalOp);
    forall i | 0 <= i < |t.free|
      ensures t.free[i] == q.free[i + 1] && t.slots[t.free[i]] == q.slots[q.free[i + 1]]
    {
      assert q.free[i + 1] in q.free[1..];
    }
  }

  lemma EnqueueLog(log: seq<Event>, targets: seq<nat>, clock: nat, target: nat)
    requires LogOk(log, targets, clock)
    ensures LogOk(log, targets + [target], clock)
  {
    forall i | 0 <= i < |log|
      ensures CompletionOk(log, targets + [target], clock, i)
    {
      assert CompletionOk(log, targets, clock, i);
    }
  }

  lemma NotLogged(q: Queue)
    requires LogOk(q.log, q.targets, q.clock)
    ensures !Logged(q.log, |q.targets|)
  {
    forall i: nat | i < |q.log|
      ensures !CompletedAt(q.log, i, |q.targets|)
    {
      assert CompletionOk(q.log, q.targets, q.clock, i);
    }
  }

  /** The events so far do not tell anything about a new request. */
  lemma EventsStay(log: seq<Event>, kinds: seq<bool>, internalOp: bool)
    requires forall i :: 0 <= i < |log| ==> EventOk(log, kinds, i)
    ensures forall i :: 0 <= i < |log| ==> EventOk(log, kinds + [internalOp], i)
  {
    hide Moved;
    forall i | 0 <= i < |log|
      ensures EventOk(log, kinds + [internalOp], i)
    {
      assert EventOk(log, kinds, i);
    }
  }

  /** A new request has not been copied, and counts as copied if it is an internal one. */
  lemma EnqueueData(q: Queue, target: nat, internalOp: bool)
    requires Partition(q) && DataOk(q) && CanEnqueue(q)
    requires q.free[0] < |q.slots| && Partition(Enqueue(q, target, internalOp))
    ensures DataOk(Enqueue(q, target, internalOp))
  {
    hide InsertPos, Moved, EventOk;
    FirstFree(q);
    EventsStay(q.log, q.kinds, internalOp);
    NotMoved(q);
    var e, k := q.free[0], InsertPos(q.slots, q.io, q.latest, target);
    var t := Enqueue(q, target, internalOp);
    assert t.io == Inserted(q.io, k, e);
    hide Partition;
    forall i | 0 <= i < |t.io|
      ensures FlagsOk(t.slots[t.io[i]], t.kinds, t.log)
    {
      if i != k {
        assert q.io[if i < k then i else i - 1] in q.io;
        assert FlagsOk(q.slots[q.io[if i < k then i else i - 1]], q.kinds, q.log);
      }
    }
  }

  lemma NotMoved(q: Queue)
    requires forall i :: 0 <= i < |q.log| ==> EventOk(q.log, q.kinds, i)
    ensures !Moved(q.log, |q.log|, |q.kinds|)
  {
    forall j | 0 <= j < |q.log|
      ensures q.log[j] != Copied(|q.kinds|)
    {
      assert EventOk(q.log, q.kinds, j);
    }
  }

  lemma EnqueueInv(q: Queue, target: nat, internalOp: bool)
    requires Inv(q) && CanEnqueue(q)
    ensures q.free[0] < |q.slots|
    ensures Inv(Enqueue(q, target, internalOp))
  {
    hide Sorted, InFlight, Covered, LogOk, InsertPos, DataOk;
    EnqueuePartition(q, target, internalOp);
    EnqueueData(q, target, internalOp);
    EnqueueSorted(q, target, internalOp);
    EnqueueInFlight(q, target, internalOp);
    EnqueueCovered(q, target, internalOp);
    EnqueueFreeTail(q, target, internalOp);
    FirstFree(q);
    hide FreeTail, Partition;
    EnqueueLog(q.log, q.targets, q.clock, target);
  }

  // ---------- reclaiming ----------

  lemma Dropped(io: seq<nat>, k: nat)
    requires k <= |io| && NoDup(io)
    ensures NoDup(io[k..])
    ensures forall x :: x in io <==> x in io[..k] || x in io[k..]
    ensures forall x :: x in io[..k] ==> x !in io[k..]
  {
    assert io == io[..k] + io[k..];
  }

  lemma ReclaimPartition(q: Queue)
    requires Partition(q)
    ensures Partition(Reclaim(q))
    ensures forall x :: x in Reclaim(q).io ==> x in q.io
    ensures forall x :: x in q.io && !q.slots[x].completed ==> x in Reclaim(q).io
  {
    var k := ReclaimLen(q.slots, q.io, q.latest);
    Dropped(q.io, k);
    var t := Reclaim(q);
    forall i, j | 0 <= i < j < |t.free|
      ensures t.free[i] != t.free[j]
    {
      if i < |q.free| <= j {
        assert t.free[i] in q.free && t.free[j] in q.io;
      }
    }
  }

  lemma ReclaimInFlight(q: Queue)
    requires Partition(q) && InFlight(q) && Sorted(q) && Partition(Reclaim(q))
    ensures InFlight(Reclaim(q)) && Sorted(Reclaim(q))
  {
    var k := ReclaimLen(q.slots, q.io, q.latest);
    var t := Reclaim(q);
    assert forall i :: 0 <= i < |t.io| ==> t.io[i] == q.io[i + k];
    forall i | 0 <= i < |t.io|
      ensures SlotOk(t.slots[t.io[i]], t.targets, t.log, t.latest)
    {
      assert SlotOk(q.slots[q.io[i + k]], q.targets, q.log, q.latest);
    }
    hide SlotOk, Partition;
    forall i, j | 0 <= i < j < |t.io|
      ensures t.slots[t.io[i]].rid != t.slots[t.io[j]].rid
      ensures Max(t.slots[t.io[i]].target, t.latest) <= Max(t.slots[t.io[j]].target, t.latest)
    {
      assert q.slots[q.io[i + k]].rid != q.slots[q.io[j + k]].rid;
    }
  }

  lemma ReclaimCovered(q: Queue)
    requires Partition(q) && Covered(q)
    ensures Covered(Reclaim(q))
  {
    ReclaimPartition(q);
    var t := Reclaim(q);
    forall rid | 0 <= rid < |t.targets|
      ensures Logged(t.log, rid) || exists x :: Holds(t, x, rid)
    {
      if !Logged(q.log, rid) {
        var x :| Holds(q, x, rid);
        assert Holds(t, x, rid);
      }
    }
  }

  lemma ReclaimData(q: Queue)
    requires Partition(q) && DataOk(q) && Partition(Reclaim(q))
    ensures DataOk(Reclaim(q))
  {
    var k := ReclaimLen(q.slots, q.io, q.latest);
    var t := Reclaim(q);
    forall i | 0 <= i < |t.io|
      ensures FlagsOk(t.slots[t.io[i]], t.kinds, t.log)
    {
      assert t.io[i] == q.io[i + k] && FlagsOk(q.slots[q.io[i + k]], q.kinds, q.log);
    }
    hide FlagsOk, EventOk, ReclaimLen;
  }

  lemma ReclaimInv(q: Queue)
    requires Inv(q)
    ensures Inv(Reclaim(q))
  {
    ReclaimPartition(q);
    ReclaimInFlight(q);
    ReclaimCovered(q);
    ReclaimData(q);
    hide InFlight, Sorted, Covered, LogOk, DataOk;
  }

  /** A slot is taken back only after its request has been completed. */
  lemma ReclaimedIsCompleted(q: Queue, e: nat)
    requires Inv(q) && e in q.io && e !in Reclaim(q).io
    ensures e < |q.slots| && Logged(q.log, q.slots[e].rid)
  {
    ReclaimPartition(q);
    var i :| 0 <= i < |q.io| && q.io[i] == e;
    assert SlotOk(q.slots[q.io[i]], q.targets, q.log, q.latest);
  }
}
