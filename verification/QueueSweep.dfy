/** The worker side of the queue: every step of the sweep keeps the invariant, and whole runs. */
module QueueSweep {
  import opened Arith
  import opened Counting
  import opened QueueModel
  import opened QueueRuns

  // ---------- the list under the cursor ----------

  lemma AfterMember(list: seq<nat>, e: nat)
    requires e in list
    ensures IndexOf(list, e) < |list|
    ensures After(list, e) >= 0 ==> After(list, e) in list
  {
  }

  /** The cursor may only move on to an in-flight entry or a completed one. */
  lemma NextIsLive(q: Queue, e: nat)
    requires Partition(q) && FreeTail(q)
    requires e < |q.slots| && (e in q.io || q.slots[e].completed)
    ensures var c := NextOf(q, e); c >= 0 ==> c < |q.slots| && (c in q.io || q.slots[c].completed)
  {
    if e in q.io {
      AfterMember(q.io, e);
    } else {
      AfterMember(q.free, e);
    }
  }

  // ---------- one step of the sweep ----------

  lemma SortedLater(q: Queue, t: Queue)
    requires Partition(q) && Partition(t) && Sorted(q)
    requires t.slots == q.slots && t.io == q.io && q.latest <= t.latest
    ensures Sorted(t)
  {
    forall i, j | 0 <= i < j < |t.io|
      ensures Max(t.slots[t.io[i]].target, t.latest) <= Max(t.slots[t.io[j]].target, t.latest)
    {
      assert Max(q.slots[q.io[i]].target, q.latest) <= Max(q.slots[q.io[j]].target, q.latest);
    }
  }

  lemma InFlightLater(q: Queue, t: Queue)
    requires Partition(q) && Partition(t) && InFlight(q)
    requires t.slots == q.slots && t.io == q.io && t.targets == q.targets && t.log == q.log && q.latest <= t.latest
    ensures InFlight(t)
  {
    forall i | 0 <= i < |t.io|
      ensures SlotOk(t.slots[t.io[i]], t.targets, t.log, t.latest)
    {
      assert SlotOk(q.slots[q.io[i]], q.targets, q.log, q.latest);
    }
  }

  lemma CoveredSame(q: Queue, t: Queue)
    requires Covered(q)
    requires t.slots == q.slots && t.io == q.io && t.targets == q.targets && t.log == q.log
    ensures Covered(t)
  {
    forall rid | 0 <= rid < |t.targets|
      ensures Logged(t.log, rid) || exists e :: Holds(t, e, rid)
    {
      if !Logged(q.log, rid) {
        var e :| Holds(q, e, rid);
        assert Holds(t, e, rid);
      }
    }
  }

  lemma DataSame(q: Queue, t: Queue)
    requires Partition(q) && Partition(t) && DataOk(q)
    requires t.slots == q.slots && t.io == q.io && t.targets == q.targets && t.kinds == q.kinds && t.log == q.log
    ensures DataOk(t)
  {
    hide FlagsOk, EventOk, Partition;
  }

  /** Reading the clock and classifying the entry. */
  lemma TestInv(q: Queue)
    requires Inv(q) && q.worker.At? && q.worker.phase == Test
    ensures Inv(WorkerStep(q))
  {
    var t := WorkerStep(q);
    assert Partition(t);
    SortedLater(q, t);
    InFlightLater(q, t);
    CoveredSame(q, t);
    DataSame(q, t);
    hide Sorted, InFlight, Covered, LogOk, Partition, DataOk;
  }

  /** Choosing the next entry, or the first one of a new sweep. */
  lemma MoveInv(q: Queue)
    requires Inv(q) && (q.worker.Idle? || q.worker.phase == Move)
    ensures Inv(WorkerStep(q))
  {
    var t := WorkerStep(q);
    assert Partition(t);
    if q.worker.At? {
      NextIsLive(q, q.worker.e);
    }
    SortedLater(q, t);
    InFlightLater(q, t);
    CoveredSame(q, t);
    DataSame(q, t);
    assert q.io != [] ==> q.io[0] in q.io && q.io[0] < |q.slots|;
    hide Sorted, InFlight, Covered, LogOk, Partition, DataOk, NextOf;
  }

  lemma LoggedMore(log: seq<Event>, c: Event)
    ensures forall rid :: Logged(log + [c], rid) <==> Logged(log, rid) || (c.Completed? && rid == c.rid)
  {
    var l := log + [c];
    if c.Completed? {
      assert CompletedAt(l, |log|, c.rid);
    }
    forall rid | Logged(log, rid)
      ensures Logged(l, rid)
    {
      var i: nat :| CompletedAt(log, i, rid);
      assert CompletedAt(l, i, rid);
    }
    forall rid | Logged(l, rid) && !(c.Completed? && rid == c.rid)
      ensures Logged(log, rid)
    {
      var i: nat :| CompletedAt(l, i, rid);
      assert CompletedAt(log, i, rid);
    }
  }

  lemma MovedMore(log: seq<Event>, c: Event, n: nat)
    requires n <= |log|
    ensures forall rid :: Moved(log + [c], n, rid) <==> Moved(log, n, rid)
    ensures forall rid :: Moved(log + [c], |log| + 1, rid) <==> Moved(log, |log|, rid) || c == Copied(rid)
  {
    var l := log + [c];
    assert l[|log|] == c;
    forall j | 0 <= j < |log|
      ensures l[j] == log[j]
    {
    }
  }

  /** An event is added that is in order. */
  lemma EventAdded(log: seq<Event>, kinds: seq<bool>, c: Event)
    requires forall i :: 0 <= i < |log| ==> EventOk(log, kinds, i)
    requires c.rid < |kinds|
    requires if c.Copied? then !kinds[c.rid] && !Moved(log, |log|, c.rid) else kinds[c.rid] || Moved(log, |log|, c.rid)
    ensures forall i :: 0 <= i <= |log| ==> EventOk(log + [c], kinds, i)
  {
    hide Moved;
    var l := log + [c];
    MovedMore(log, c, |log|);
    forall i | 0 <= i <= |log|
      ensures EventOk(l, kinds, i)
    {
      if i < |log| {
        MovedMore(log, c, i);
        assert EventOk(log, kinds, i);
      }
    }
  }

  lemma LogAdded(log: seq<Event>, targets: seq<nat>, clock: nat, c: Event)
    requires LogOk(log, targets, clock)
    requires c.Completed? ==> !Logged(log, c.rid) && c.rid < |targets| && targets[c.rid] <= c.time <= clock
    ensures LogOk(log + [c], targets, clock)
  {
    var l := log + [c];
    forall i | 0 <= i < |l|
      ensures CompletionOk(l, targets, clock, i)
    {
      assert i < |log| ==> CompletionOk(log, targets, clock, i);
      forall j | 0 <= j < i && CompletedAt(l, j, l[i].rid)
        ensures !l[i].Completed?
      {
        assert CompletedAt(log, j, l[i].rid);
      }
    }
  }

  /** The entry whose data are copied belongs to a host request that has not been copied before. */
  lemma CopiedEntry(q: Queue)
    requires Inv(q) && q.worker.At? && q.worker.phase == Copy
    ensures q.worker.e in q.io
    ensures var s := q.slots[q.worker.e];
      s.rid < |q.kinds| && !q.kinds[s.rid] && !s.internalOp && !Moved(q.log, |q.log|, s.rid)
    ensures forall e :: e in q.io && e != q.worker.e ==> e < |q.slots| && q.slots[e].rid != q.slots[q.worker.e].rid
  {
    OtherEntries(q, q.worker.e);
    var k :| 0 <= k < |q.io| && q.io[k] == q.worker.e;
    assert FlagsOk(q.slots[q.io[k]], q.kinds, q.log);
  }

  /** Two in-flight entries belong to different requests. */
  lemma OtherEntries(q: Queue, e: nat)
    requires Partition(q) && InFlight(q) && e in q.io
    ensures forall x :: x in q.io && x != e ==> x < |q.slots| && q.slots[x].rid != q.slots[e].rid
  {
    var k :| 0 <= k < |q.io| && q.io[k] == e;
    forall x | x in q.io && x != e
      ensures x < |q.slots| && q.slots[x].rid != q.slots[e].rid
    {
      var i :| 0 <= i < |q.io| && q.io[i] == x;
      if i < k {
        assert q.slots[q.io[i]].rid != q.slots[q.io[k]].rid;
      } else {
        assert q.slots[q.io[k]].rid != q.slots[q.io[i]].rid;
      }
    }
  }

  /** The event of a step, and the flags of the entry it is about, keep the data in order. */
  lemma DataAdded(q: Queue, t: Queue, e: nat, c: Event)
    requires Partition(q) && Partition(t) && DataOk(q) && e < |q.slots|
    requires t.io == q.io && t.targets == q.targets && t.kinds == q.kinds && t.log == q.log + [c]
    requires |t.slots| == |q.slots| && forall x :: 0 <= x < |q.slots| && x != e ==> t.slots[x] == q.slots[x]
    requires t.slots[e].rid == q.slots[e].rid == c.rid && t.slots[e].internalOp == q.slots[e].internalOp
    requires c.rid < |q.kinds|
    requires if c.Copied? then !q.kinds[c.rid] && !Moved(q.log, |q.log|, c.rid) && t.slots[e].copied
             else t.slots[e].copied == q.slots[e].copied && (q.kinds[c.rid] || Moved(q.log, |q.log|, c.rid))
    requires forall x :: x in q.io && x != e ==> x < |q.slots| && q.slots[x].rid != c.rid
    ensures DataOk(t)
  {
    hide Moved, EventOk, Partition;
    EventAdded(q.log, q.kinds, c);
    MovedMore(q.log, c, |q.log|);
    forall i | 0 <= i < |t.io|
      ensures FlagsOk(t.slots[t.io[i]], t.kinds, t.log)
    {
      assert q.io[i] in q.io;
      assert FlagsOk(q.slots[q.io[i]], q.kinds, q.log);
    }
  }

  lemma CopiedInFlight(q: Queue)
    requires Inv(q) && q.worker.At? && q.worker.phase == Copy
    ensures var t := WorkerStep(q); Partition(t) && Sorted(t) && InFlight(t) && Covered(t) && FreeTail(t)
  {
    var e := q.worker.e;
    var t := WorkerStep(q);
    assert Partition(t) && Sorted(t) && FreeTail(t);
    LoggedMore(q.log, Copied(q.slots[e].rid));
    assert InFlight(t) by {
      hide Partition, Sorted, Covered, FreeTail, LogOk, Logged, DataOk;
      forall i | 0 <= i < |t.io|
        ensures SlotOk(t.slots[t.io[i]], t.targets, t.log, t.latest)
      {
        assert SlotOk(q.slots[q.io[i]], q.targets, q.log, q.latest);
      }
    }
    assert Covered(t) by {
      hide Partition, Sorted, InFlight, FreeTail, LogOk, Logged, DataOk;
      forall rid | 0 <= rid < |t.targets|
        ensures Logged(t.log, rid) || exists x :: Holds(t, x, rid)
      {
        if !Logged(q.log, rid) {
          var x :| Holds(q, x, rid);
          assert Holds(t, x, rid);
        }
      }
    }
  }

  /** Copying the data changes nothing but the flag of the entry. */
  lemma CopyInv(q: Queue)
    requires Inv(q) && q.worker.At? && q.worker.phase == Copy
    ensures Inv(WorkerStep(q))
  {
    var e := q.worker.e;
    var t := WorkerStep(q);
    CopiedInFlight(q);
    CopiedEntry(q);
    LogAdded(q.log, q.targets, q.clock, Copied(q.slots[e].rid));
    hide Sorted, InFlight, Covered, LogOk, Partition, FreeTail, Logged;
    DataAdded(q, t, e, Copied(q.slots[e].rid));
    hide DataOk, Moved;
  }

  /** The entry the worker may complete belongs to a request that was not completed before, and its data have been
      moved if it is a host request. */
  lemma UnfinishedEntry(q: Queue)
    requires Inv(q) && q.worker.At? && q.worker.phase == Finish
    ensures q.worker.e in q.io
    ensures var s := q.slots[q.worker.e];
      && !s.completed && s.copied && !Logged(q.log, s.rid) && s.rid < |q.targets| && s.target == q.targets[s.rid]
      && s.rid < |q.kinds| && (q.kinds[s.rid] || Moved(q.log, |q.log|, s.rid))
    ensures forall e :: e in q.io && e != q.worker.e ==> e < |q.slots| && q.slots[e].rid != q.slots[q.worker.e].rid
  {
    OtherEntries(q, q.worker.e);
    var k :| 0 <= k < |q.io| && q.io[k] == q.worker.e;
    assert SlotOk(q.slots[q.io[k]], q.targets, q.log, q.latest);
    assert FlagsOk(q.slots[q.io[k]], q.kinds, q.log);
  }

  lemma CompletedInFlight(q: Queue)
    requires Inv(q) && q.worker.At? && q.worker.phase == Finish && q.slots[q.worker.e].target <= q.worker.now
    ensures var t := WorkerStep(q); Partition(t) && InFlight(t) && Covered(t)
  {
    UnfinishedEntry(q);
    var e := q.worker.e;
    var t := WorkerStep(q);
    LoggedMore(q.log, Completed(q.slots[e].rid, q.worker.now));
    hide Sorted, FreeTail, LogOk, Logged, DataOk, Moved;
    forall i | 0 <= i < |t.io|
      ensures SlotOk(t.slots[t.io[i]], t.targets, t.log, t.latest)
    {
      assert q.io[i] in q.io;
      assert SlotOk(q.slots[q.io[i]], q.targets, q.log, q.latest);
    }
    forall i, j | 0 <= i < j < |t.io|
      ensures t.slots[t.io[i]].rid != t.slots[t.io[j]].rid
    {
      assert q.slots[q.io[i]].rid != q.slots[q.io[j]].rid;
    }
    assert Covered(t) by {
      hide Partition, InFlight;
      forall rid | 0 <= rid < |t.targets|
        ensures Logged(t.log, rid) || exists x :: Holds(t, x, rid)
      {
        if !Logged(t.log, rid) {
          var x :| Holds(q, x, rid);
          assert Holds(t, x, rid);
        }
      }
    }
  }

  lemma CompletedLists(q: Queue)
    requires Inv(q) && q.worker.At? && q.worker.phase == Finish && q.slots[q.worker.e].target <= q.worker.now
    ensures var t := WorkerStep(q); Partition(t) && Sorted(t) && FreeTail(t)
  {
    var t := WorkerStep(q);
    hide InFlight, Covered, LogOk, Logged, DataOk;
    assert Partition(t) && Sorted(t);
    hide Sorted;
    forall i | 0 <= i < |t.free|
      ensures t.slots[t.free[i]] == q.slots[q.free[i]]
    {
      assert q.free[i] in q.free;
    }
  }

  /** Completing an entry logs its request for the first time, not before its target. */
  lemma FinishInv(q: Queue)
    requires Inv(q) && q.worker.At? && q.worker.phase == Finish
    ensures Inv(WorkerStep(q))
  {
    var e := q.worker.e;
    var t := WorkerStep(q);
    if q.slots[e].target <= q.worker.now {
      CompletedInFlight(q);
      CompletedLists(q);
      UnfinishedEntry(q);
      var c := Completed(q.slots[e].rid, q.worker.now);
      LogAdded(q.log, q.targets, q.clock, c);
      DataAdded(q, t, e, c);
    } else {
      assert Partition(t);
      SortedLater(q, t);
      InFlightLater(q, t);
      CoveredSame(q, t);
      DataSame(q, t);
    }
    hide Sorted, InFlight, Covered, LogOk, Partition, FreeTail, DataOk;
  }

  lemma WorkerStepInv(q: Queue)
    requires Inv(q)
    ensures q.worker.At? ==> q.worker.e < |q.slots|
    ensures Inv(WorkerStep(q))
  {
    if q.worker.Idle? || q.worker.phase == Move {
      MoveInv(q);
    } else if q.worker.phase == Test {
      TestInv(q);
    } else if q.worker.phase == Copy {
      CopyInv(q);
    } else {
      FinishInv(q);
    }
  }

  // ---------- whole runs ----------

  function Tick(q: Queue, d: nat): Queue {
    q.(clock := q.clock + d)
  }

  lemma LogLater(log: seq<Event>, targets: seq<nat>, clock: nat, later: nat)
    requires LogOk(log, targets, clock) && clock <= later
    ensures LogOk(log, targets, later)
  {
    forall i | 0 <= i < |log|
      ensures CompletionOk(log, targets, later, i)
    {
      assert CompletionOk(log, targets, clock, i);
    }
  }

  lemma TickInv(q: Queue, d: nat)
    requires Inv(q)
    ensures Inv(Tick(q, d))
  {
    var t := Tick(q, d);
    assert Partition(t);
    SortedLater(q, t);
    InFlightLater(q, t);
    CoveredSame(q, t);
    DataSame(q, t);
    LogLater(q.log, q.targets, q.clock, t.clock);
    hide Sorted, InFlight, Covered, Partition, DataOk, LogOk;
  }

  /** `NVMEV_IO_WORKER_INIT`: all entries are free and zeroed. */
  function Init(n: nat): Queue {
    Queue(seq(n, _ => Slot(0, 0, false, false, false)), seq(n, i requires 0 <= i < n => i), [], 0, 0, Idle, [], [], [])
  }

  lemma InitInv(n: nat)
    requires n > 0
    ensures Inv(Init(n))
  {
    var q := Init(n);
    forall e | 0 <= e < |q.slots|
      ensures e in q.free
    {
      assert q.free[e] == e;
    }
  }

  /** One atomic step of either thread, or of the clock. */
  datatype Action = Submit(target: nat, internalOp: bool) | ReclaimDone | Work | Elapse(d: nat)

  function Step(q: Queue, a: Action): (t: Queue)
    requires Inv(q)
    ensures Inv(t) && |t.slots| == |q.slots|
  {
    hide Sorted, FreeTail, CursorOk, InFlight, LogOk, Covered, DataOk;
    match a
    case Submit(target, internalOp) =>
      if CanEnqueue(q) then
        EnqueueInv(q, target, internalOp);
        Enqueue(q, target, internalOp)
      else q
    case ReclaimDone =>
      ReclaimInv(q);
      Reclaim(q)
    case Work =>
      WorkerStepInv(q);
      WorkerStep(q)
    case Elapse(d) =>
      TickInv(q, d);
      Tick(q, d)
  }

  function Run(q: Queue, actions: seq<Action>): (t: Queue)
    requires Inv(q)
    ensures Inv(t) && |t.slots| == |q.slots|
  {
    if actions == [] then q else Step(Run(q, actions[..|actions| - 1]), actions[|actions| - 1])
  }

  lemma Partitioned(n: nat, free: seq<nat>, io: seq<nat>)
    requires NoDup(free) && NoDup(io)
    requires forall e :: 0 <= e < n ==> (e in free <==> e !in io)
    requires forall i :: 0 <= i < |free| ==> free[i] < n
    requires forall i :: 0 <= i < |io| ==> io[i] < n
    ensures |free| + |io| == n
  {
    NoDupSize(free);
    NoDupSize(io);
    assert Elements(free) + Elements(io) == Upto(n);
    assert Elements(free) !! Elements(io);
  }

  /** Only requests and nothing done about them. */
  predicate OnlySubmits(actions: seq<Action>) {
    forall i :: 0 <= i < |actions| ==> actions[i].Submit?
  }

  /** While an entry besides the last one is free, every request takes one. */
  lemma {:induction false} SubmitsFill(n: nat, actions: seq<Action>)
    requires |actions| < n && OnlySubmits(actions)
    ensures Inv(Init(n))
    ensures var t := Run(Init(n), actions); |t.free| == n - |actions| && |t.targets| == |actions|
  {
    hide Inv;
    InitInv(n);
    if actions != [] {
      var k := |actions| - 1;
      SubmitsFill(n, actions[..k]);
      SubmitTakes(Run(Init(n), actions[..k]), actions[k]);
    }
  }

  lemma SubmitTakes(q: Queue, a: Action)
    requires Inv(q) && a.Submit? && CanEnqueue(q)
    ensures var t := Step(q, a); |t.free| + 1 == |q.free| && |t.targets| == |q.targets| + 1
  {
    hide Sorted, FreeTail, CursorOk, InFlight, LogOk, Covered, DataOk;
  }

  /** Of the requests to an idle queue of `n` entries the first `n - 1` are accepted, and the next one is dropped
      without a trace although one entry is still free. */
  lemma LastEntryDropped(n: nat, actions: seq<Action>, a: Action)
    requires n > 0 && |actions| == n - 1 && OnlySubmits(actions) && a.Submit?
    ensures Inv(Init(n))
    ensures var t := Run(Init(n), actions); |t.targets| == n - 1 && |t.free| == 1 && Step(t, a) == t
  {
    SubmitsFill(n, actions);
    hide Inv, Run;
  }

  /** A request that is not completed yet, and no other, is held by an in-flight entry. */
  ghost predicate NoneLost(t: Queue) {
    forall rid :: 0 <= rid < |t.targets| ==> (!Logged(t.log, rid) <==> exists e :: Holds(t, e, rid))
  }

  /** No request is completed twice, and none before its target time. */
  ghost predicate OnceAndOnTime(t: Queue) {
    && (forall i, j :: 0 <= i < j < |t.log| && t.log[i].Completed? && t.log[j].Completed? ==> t.log[i].rid != t.log[j].rid)
    && (forall i :: 0 <= i < |t.log| && t.log[i].Completed? ==>
          t.log[i].rid < |t.targets| && t.targets[t.log[i].rid] <= t.log[i].time)
  }

  lemma InvOnceAndOnTime(t: Queue)
    requires LogOk(t.log, t.targets, t.clock)
    ensures OnceAndOnTime(t)
  {
    forall i | 0 <= i < |t.log| && t.log[i].Completed?
      ensures t.log[i].rid < |t.targets| && t.targets[t.log[i].rid] <= t.log[i].time
    {
      assert CompletionOk(t.log, t.targets, t.clock, i);
    }
    forall i, j | 0 <= i < j < |t.log| && t.log[i].Completed? && t.log[j].Completed?
      ensures t.log[i].rid != t.log[j].rid
    {
      assert CompletionOk(t.log, t.targets, t.clock, j);
      assert t.log[i].rid == t.log[j].rid ==> CompletedAt(t.log, i, t.log[j].rid);
    }
  }

  /** Off the in-flight list the cursor is at a free entry from which only completed entries follow. */
  ghost predicate CursorSafe(t: Queue) {
    t.worker.At? && t.worker.e !in t.io ==>
      && t.worker.e in t.free
      && (forall j :: IndexOf(t.free, t.worker.e) <= j < |t.free| ==>
            t.free[j] < |t.slots| && t.slots[t.free[j]].completed)
  }

  lemma InvNoneLost(t: Queue)
    requires Partition(t) && InFlight(t) && Covered(t)
    ensures NoneLost(t)
  {
    forall rid | 0 <= rid < |t.targets|
      ensures !Logged(t.log, rid) <==> exists e :: Holds(t, e, rid)
    {
      if e :| Holds(t, e, rid) {
        var i :| 0 <= i < |t.io| && t.io[i] == e;
        assert SlotOk(t.slots[t.io[i]], t.targets, t.log, t.latest);
      }
    }
  }

  lemma InvCursorSafe(t: Queue)
    requires Partition(t) && FreeTail(t) && CursorOk(t)
    ensures CursorSafe(t)
  {
  }

  lemma InitSize(n: nat)
    ensures |Init(n).slots| == n
  {
  }

  lemma InvSafe(n: nat, t: Queue)
    requires Inv(t) && |t.slots| == n
    ensures |t.free| + |t.io| == n && |t.free| >= 1 && NoneLost(t) && OnceAndOnTime(t) && CursorSafe(t)
  {
    hide Logged, Holds, Sorted, Covered, InFlight, FreeTail, CursorOk, LogOk, DataOk, NoneLost, OnceAndOnTime, CursorSafe;
    InvOnceAndOnTime(t);
    Partitioned(n, t.free, t.io);
    InvNoneLost(t);
    InvCursorSafe(t);
  }

  /** In every run from the initial state, whatever the interleaving, the two lists partition the entries
      with at least one left free, and the three safety properties above hold. */
  lemma RunSafe(n: nat, actions: seq<Action>)
    requires n > 0
    ensures Inv(Init(n))
    ensures var t := Run(Init(n), actions);
      |t.free| + |t.io| == n && |t.free| >= 1 && NoneLost(t) && OnceAndOnTime(t) && CursorSafe(t)
  {
    hide Run, Init, Inv, NoneLost, OnceAndOnTime, CursorSafe;
    InitInv(n);
    InitSize(n);
    InvSafe(n, Run(Init(n), actions));
  }

  // ---------- the data ----------

  /** The requests of a run that were accepted, in order; a request is dropped while only one entry is free. */
  function Accepted(q: Queue, actions: seq<Action>): seq<Action>
    requires Inv(q)
  {
    if actions == [] then []
    else
      var k := |actions| - 1;
      var a := actions[k];
      Accepted(q, actions[..k]) + if a.Submit? && |Run(q, actions[..k]).free| > 1 then [a] else []
  }

  /** Request number `r` is the `r`-th one accepted. */
  ghost predicate NumbersOk(t: Queue, accepted: seq<Action>) {
    && |t.targets| == |t.kinds| == |accepted|
    && forall r :: 0 <= r < |accepted| ==>
         accepted[r].Submit? && t.targets[r] == accepted[r].target && t.kinds[r] == accepted[r].internalOp
  }

  lemma StepNumbers(q: Queue, a: Action, accepted: seq<Action>)
    requires Inv(q) && NumbersOk(q, accepted)
    ensures NumbersOk(Step(q, a), accepted + if a.Submit? && |q.free| > 1 then [a] else [])
  {
    hide Partition, Sorted, FreeTail, CursorOk, InFlight, LogOk, Covered, DataOk, InsertPos, ReclaimLen;
  }

  lemma {:induction false} RunNumbers(n: nat, actions: seq<Action>)
    requires n > 0
    ensures Inv(Init(n)) && NumbersOk(Run(Init(n), actions), Accepted(Init(n), actions))
  {
    hide Inv, Step;
    InitInv(n);
    if actions != [] {
      var k := |actions| - 1;
      RunNumbers(n, actions[..k]);
      StepNumbers(Run(Init(n), actions[..k]), actions[k], Accepted(Init(n), actions[..k]));
    }
  }

  /** Event `i` moves the data of request `r`. */
  predicate Moves(log: seq<Event>, i: nat, r: nat) {
    i < |log| && log[i] == Copied(r)
  }

  /** The data of request `r` are moved at most once, only for a host request, and before it is completed. */
  ghost predicate DataOfRequest(log: seq<Event>, r: nat, internalOp: bool) {
    && (internalOp ==> forall i: nat :: !Moves(log, i, r))
    && (forall i: nat, j: nat :: Moves(log, i, r) && Moves(log, j, r) ==> i == j)
    && (!internalOp ==> forall i: nat :: CompletedAt(log, i, r) ==> exists j: nat :: j < i && Moves(log, j, r))
  }

  lemma EventsOfRequest(log: seq<Event>, kinds: seq<bool>, r: nat)
    requires r < |kinds| && forall i :: 0 <= i < |log| ==> EventOk(log, kinds, i)
    ensures DataOfRequest(log, r, kinds[r])
  {
    forall i: nat | Moves(log, i, r)
      ensures !kinds[r] && !Moved(log, i, r)
    {
      assert EventOk(log, kinds, i);
    }
    forall i: nat, j: nat | i < j && Moves(log, i, r)
      ensures !Moves(log, j, r)
    {
      assert j < |log| ==> Moved(log, j, r);
    }
    forall i: nat | CompletedAt(log, i, r) && !kinds[r]
      ensures exists j: nat :: j < i && Moves(log, j, r)
    {
      assert EventOk(log, kinds, i);
      var j :| 0 <= j < i && log[j] == Copied(r);
      assert Moves(log, j, r);
    }
  }

  /** In every run, for every accepted request: the data of one submitted as a host request are moved at most once, and
      exactly once, before that, if it is completed; the data of one submitted as internal are never moved. The events
      name no other requests. */
  lemma RunMovesData(n: nat, actions: seq<Action>, r: nat)
    requires n > 0
    ensures Inv(Init(n))
    ensures var log, accepted := Run(Init(n), actions).log, Accepted(Init(n), actions);
      && (forall i :: 0 <= i < |log| ==> log[i].rid < |accepted|)
      && (r < |accepted| ==> accepted[r].Submit? && DataOfRequest(log, r, accepted[r].internalOp))
  {
    hide Run, Init, Accepted, Partition, Sorted, FreeTail, CursorOk, InFlight, LogOk, Covered, DataOfRequest, FlagsOk;
    InitInv(n);
    RunNumbers(n, actions);
    var t := Run(Init(n), actions);
    forall i | 0 <= i < |t.log|
      ensures t.log[i].rid < |t.kinds|
    {
      assert EventOk(t.log, t.kinds, i);
    }
    if r < |t.kinds| {
      EventsOfRequest(t.log, t.kinds, r);
    }
  }

  // ---------- what a sweep achieves ----------

  /** `n` undisturbed steps of the worker. */
  function Sweep(q: Queue, n: nat): (t: Queue)
    requires Inv(q)
    ensures Inv(t)
    decreases n
  {
    if n == 0 then q
    else
      WorkerStepInv(q);
      Sweep(WorkerStep(q), n - 1)
  }

  lemma {:induction false} SweepMore(q: Queue, m: nat, n: nat)
    requires Inv(q)
    ensures Sweep(Sweep(q, m), n) == Sweep(q, m + n)
    decreases m
  {
    hide Partition, Sorted, FreeTail, CursorOk, InFlight, LogOk, Covered, DataOk;
    if m > 0 {
      WorkerStepInv(q);
      hide WorkerStep;
      SweepMore(WorkerStep(q), m - 1, n);
    }
  }

  /** What the worker leaves alone. */
  ghost predicate Keeps(q: Queue, t: Queue) {
    && (t.io, t.free, t.clock, t.targets, |t.slots|) == (q.io, q.free, q.clock, q.targets, |q.slots|)
    && (forall e :: 0 <= e < |q.slots| ==>
          && (t.slots[e].rid, t.slots[e].target) == (q.slots[e].rid, q.slots[e].target)
          && (q.slots[e].completed ==> t.slots[e].completed))
  }

  lemma {:induction false} SweepKeeps(q: Queue, n: nat)
    requires Inv(q)
    ensures Keeps(q, Sweep(q, n))
    decreases n
  {
    hide Partition, Sorted, FreeTail, CursorOk, InFlight, LogOk, Covered, DataOk;
    if n > 0 {
      WorkerStepInv(q);
      assert Keeps(q, WorkerStep(q));
      hide WorkerStep;
      SweepKeeps(WorkerStep(q), n - 1);
    }
  }

  /** The first `k` in-flight entries are completed if they are due. */
  ghost predicate SweptTo(t: Queue, k: nat)
    requires Partition(t)
  {
    forall i :: 0 <= i < k && i < |t.io| && t.slots[t.io[i]].target <= t.clock ==> t.slots[t.io[i]].completed
  }

  /** The worker is about to look at the entry at position `i`. */
  predicate AtEntry(q: Queue, i: nat) {
    i < |q.io| && q.worker.At? && q.worker.e == q.io[i] && q.worker.phase == Test
  }

  lemma NextInFlight(q: Queue, i: nat)
    requires Partition(q) && i < |q.io|
    ensures NextOf(q, q.io[i]) == if i + 1 < |q.io| then q.io[i + 1] else -1
  {
    assert IndexOf(q.io, q.io[i]) == i;
  }

  /** One entry takes at most four steps. */
  lemma SweepEntry(q: Queue, i: nat) returns (n: nat)
    requires Inv(q) && AtEntry(q, i)
    ensures n <= 4
    ensures Sweep(q, n).worker == Goto(if i + 1 < |q.io| then q.io[i + 1] else -1, q.clock)
    ensures Sweep(q, n).latest == q.clock
    ensures Keeps(q, Sweep(q, n))
    ensures q.slots[q.io[i]].target <= q.clock ==> Sweep(q, n).slots[q.io[i]].completed
  {
    hide Sorted, FreeTail, CursorOk, InFlight, LogOk, Covered, DataOk, Keeps;
    var s := q.slots[q.io[i]];
    n := if s.completed then 2 else if s.copied then 3 else 4;
    SweepKeeps(q, n);
    WorkerStepInv(q);
    var a := WorkerStep(q);
    WorkerStepInv(a);
    var b := WorkerStep(a);
    if s.completed {
      NextInFlight(a, i);
      assert Sweep(q, 2) == Sweep(a, 1) == b;
    } else {
      WorkerStepInv(b);
      var c := WorkerStep(b);
      if s.copied {
        NextInFlight(b, i);
        assert Sweep(q, 3) == Sweep(a, 2) == Sweep(b, 1) == c;
      } else {
        WorkerStepInv(c);
        NextInFlight(c, i);
        assert Sweep(q, 4) == Sweep(a, 3) == Sweep(b, 2) == Sweep(c, 1) == WorkerStep(c);
      }
    }
  }

  /** Sweeping entry `i` extends the swept prefix by one. */
  lemma SweptMore(q: Queue, t: Queue, i: nat)
    requires Partition(q) && i < |q.io| && SweptTo(q, i) && Keeps(q, t) && Partition(t)
    requires q.slots[q.io[i]].target <= q.clock ==> t.slots[q.io[i]].completed
    ensures SweptTo(t, i + 1)
  {
  }

  lemma EntrySwept(q: Queue, t: Queue, i: nat)
    requires Keeps(q, t) && i < |q.io| && t.worker == Goto(if i + 1 < |q.io| then q.io[i + 1] else -1, q.clock)
    ensures |t.io| == |q.io| && t.clock == q.clock
    ensures if i + 1 < |q.io| then AtEntry(t, i + 1) else t.worker.Idle?
  {
  }

  lemma {:induction false} SweepFrom(q: Queue, i: nat) returns (n: nat)
    requires Inv(q) && AtEntry(q, i) && SweptTo(q, i)
    ensures n <= 4 * (|q.io| - i)
    ensures Sweep(q, n).worker.Idle? && Sweep(q, n).latest == q.clock
    ensures Keeps(q, Sweep(q, n)) && SweptTo(Sweep(q, n), |q.io|)
    decreases |q.io| - i
  {
    hide Sorted, FreeTail, CursorOk, InFlight, LogOk, Covered, DataOk, Keeps, SweptTo, WorkerStep;
    n := SweepEntry(q, i);
    var t := Sweep(q, n);
    SweptMore(q, t, i);
    EntrySwept(q, t, i);
    if i + 1 < |q.io| {
      var m := SweepFrom(t, i + 1);
      SweepMore(q, n, m);
      n := n + m;
      SweepKeeps(q, n);
    }
  }

  /** From `q` to `t` every due request has been completed, and reclaiming leaves just the later ones. */
  ghost predicate OnlyFuture(q: Queue, t: Queue) {
    && Partition(q) && Partition(t) && t.worker.Idle?
    && (forall rid :: 0 <= rid < |q.targets| && q.targets[rid] <= q.clock ==> Logged(t.log, rid))
    && (forall e :: e in Reclaim(t).io <==> e in q.io && q.slots[e].target > q.clock)
  }

  lemma HeldIsFuture(t: Queue, e: nat, rid: nat)
    requires Partition(t) && InFlight(t) && SweptTo(t, |t.io|) && Holds(t, e, rid)
    ensures rid < |t.targets| && t.targets[rid] > t.clock
  {
    var i :| 0 <= i < |t.io| && t.io[i] == e;
    assert SlotOk(t.slots[t.io[i]], t.targets, t.log, t.latest);
  }

  lemma DueAreLogged(t: Queue)
    requires Partition(t) && InFlight(t) && Covered(t) && SweptTo(t, |t.io|)
    ensures forall rid :: 0 <= rid < |t.targets| && t.targets[rid] <= t.clock ==> Logged(t.log, rid)
  {
    forall rid | 0 <= rid < |t.targets| && !Logged(t.log, rid)
      ensures t.targets[rid] > t.clock
    {
      var e :| Holds(t, e, rid);
      HeldIsFuture(t, e, rid);
    }
  }

  /** Sortedness makes the due entries a prefix, so the reclaimer reaches all of them. */
  lemma DuePrefix(t: Queue, i: nat)
    requires Partition(t) && InFlight(t) && Sorted(t) && SweptTo(t, |t.io|) && t.latest == t.clock && i < |t.io|
    ensures t.slots[t.io[i]].target > t.clock <==> ReclaimLen(t.slots, t.io, t.latest) <= i
  {
    var k := ReclaimLen(t.slots, t.io, t.latest);
    if k <= i {
      assert SlotOk(t.slots[t.io[k]], t.targets, t.log, t.latest);
      assert Max(t.slots[t.io[k]].target, t.latest) <= Max(t.slots[t.io[i]].target, t.latest);
    }
  }

  /** What is left of a list that begins with its due entries. */
  lemma LateSuffix(slots: seq<Slot>, io: seq<nat>, k: nat, clock: nat)
    requires k <= |io| && forall i :: 0 <= i < |io| ==> io[i] < |slots|
    requires forall i: nat :: i < |io| ==> (slots[io[i]].target > clock <==> k <= i)
    ensures forall e :: e in io[k..] <==> e in io && e < |slots| && slots[e].target > clock
  {
    forall e | e in io && e < |slots| && slots[e].target > clock
      ensures e in io[k..]
    {
      var i: nat :| i < |io| && io[i] == e;
      assert io[k..][i - k] == e;
    }
  }

  lemma DueAreReclaimed(t: Queue)
    requires Partition(t) && InFlight(t) && Sorted(t) && SweptTo(t, |t.io|) && t.latest == t.clock
    ensures forall e :: e in Reclaim(t).io <==> e in t.io && t.slots[e].target > t.clock
  {
    hide InFlight, Sorted, SweptTo, ReclaimLen;
    var k := ReclaimLen(t.slots, t.io, t.latest);
    forall i: nat | i < |t.io|
      ensures t.slots[t.io[i]].target > t.clock <==> k <= i
    {
      DuePrefix(t, i);
    }
    LateSuffix(t.slots, t.io, k, t.clock);
  }

  lemma SweptIsOnlyFuture(q: Queue, t: Queue)
    requires Inv(q) && Inv(t) && t.worker.Idle? && Keeps(q, t) && SweptTo(t, |t.io|)
    requires q.io == [] || t.latest == q.clock
    ensures OnlyFuture(q, t)
  {
    DueAreLogged(t);
    if q.io != [] {
      DueAreReclaimed(t);
    }
    hide Sorted, FreeTail, CursorOk, InFlight, LogOk, Covered, DataOk;
  }

  /** After an undisturbed sweep and a reclaim exactly the requests that are not yet due are in flight. */
  lemma SweepCompletesDue(q: Queue)
    requires Inv(q) && q.worker.Idle?
    ensures exists n: nat :: n <= 4 * |q.io| + 1 && OnlyFuture(q, Sweep(q, n))
  {
    hide FreeTail, CursorOk, InFlight, LogOk, Covered, DataOk;
    WorkerStepInv(q);
    var t := WorkerStep(q);
    assert Sweep(q, 1) == Sweep(t, 0) == t;
    var n: nat := 0;
    if q.io != [] {
      n := SweepFrom(t, 0);
      SweepMore(q, 1, n);
    }
    SweepKeeps(q, 1 + n);
    SweptIsOnlyFuture(q, Sweep(q, 1 + n));
    assert OnlyFuture(q, Sweep(q, 1 + n));
  }
}
