/** The request queue of one I/O worker (io.c) as a state machine. The dispatcher enqueues and
    reclaims, the worker sweeps over the queue; their atomic steps interleave in any order. */
module QueueModel {
  import opened Arith
  import opened Counting

  /** `struct nvmev_io_work`; `rid` numbers the requests in the order they were enqueued. */
  datatype Slot = Slot(rid: nat, target: nat, completed: bool, copied: bool, internalOp: bool)

  /** What the worker is about to do with the entry its cursor is at. */
  datatype Phase = Test | Copy | Finish | Move

  datatype Worker = Idle | At(e: nat, phase: Phase, now: nat)

  /** What the worker does for a request: it moves the data, and it completes the request at a time. */
  datatype Event = Copied(rid: nat) | Completed(rid: nat, time: nat)

  datatype Queue = Queue(
    slots: seq<Slot>,
    free: seq<nat>,
    io: seq<nat>,
    latest: nat,
    clock: nat,
    worker: Worker,
    targets: seq<nat>,
    kinds: seq<bool>,
    log: seq<Event>)

  // ---------- dispatcher steps ----------

  /** `__insert_req_sorted` walks back from the tail to the last entry that is already due or not
      later than the new one; the result is the number of entries before the new one. */
  function InsertPos(slots: seq<Slot>, io: seq<nat>, latest: nat, target: nat): (k: nat)
    requires forall i :: 0 <= i < |io| ==> io[i] < |slots|
    ensures k <= |io|
  {
    if io == [] then 0
    else
      var t := slots[io[|io| - 1]].target;
      if t <= latest || t <= target then |io|
      else InsertPos(slots, io[..|io| - 1], latest, target)
  }

  /** The last free entry is never handed out: the request is then dropped. */
  predicate CanEnqueue(q: Queue) {
    |q.free| > 1
  }

  function Enqueue(q: Queue, target: nat, internalOp: bool): Queue
    requires CanEnqueue(q) && q.free[0] < |q.slots|
    requires forall i :: 0 <= i < |q.io| ==> q.io[i] < |q.slots|
  {
    var e := q.free[0];
    var k := InsertPos(q.slots, q.io, q.latest, target);
    q.(slots := q.slots[e := Slot(|q.targets|, target, false, internalOp, internalOp)],
       free := q.free[1..],
       io := q.io[..k] + [e] + q.io[k..],
       targets := q.targets + [target],
       kinds := q.kinds + [internalOp])
  }

  /** An entry that `__reclaim_completed_reqs` may take. */
  predicate Reclaimable(s: Slot, latest: nat) {
    s.completed && s.copied && s.target <= latest
  }

  /** The length of the prefix that `__reclaim_completed_reqs` splices back. */
  function ReclaimLen(slots: seq<Slot>, io: seq<nat>, latest: nat): (k: nat)
    requires forall i :: 0 <= i < |io| ==> io[i] < |slots|
    ensures k <= |io|
    ensures forall i :: 0 <= i < k ==> Reclaimable(slots[io[i]], latest)
    ensures k < |io| ==> !Reclaimable(slots[io[k]], latest)
  {
    if io == [] || !Reclaimable(slots[io[0]], latest) then 0
    else
      assert forall i :: 0 <= i < |io| - 1 ==> io[1..][i] == io[i + 1];
      1 + ReclaimLen(slots, io[1..], latest)
  }

  function Reclaim(q: Queue): Queue
    requires forall i :: 0 <= i < |q.io| ==> q.io[i] < |q.slots|
  {
    var k := ReclaimLen(q.slots, q.io, q.latest);
    q.(free := q.free + q.io[..k], io := q.io[k..])
  }

  // ---------- worker steps ----------

  function IndexOf(list: seq<nat>, e: nat): (i: nat)
    ensures i <= |list|
    ensures i < |list| ==> list[i] == e && forall j :: 0 <= j < i ==> list[j] != e
    ensures i == |list| ==> e !in list
  {
    if list == [] || list[0] == e then 0
    else
      assert list == [list[0]] + list[1..];
      1 + IndexOf(list[1..], e)
  }

  /** The entry after `e` in a list, -1 at its end. */
  function After(list: seq<nat>, e: nat): int {
    var i := IndexOf(list, e);
    if i + 1 < |list| then list[i + 1] else -1
  }

  /** The `next` field of an entry, whichever list it is in. */
  function NextOf(q: Queue, e: nat): int {
    if e in q.io then After(q.io, e) else After(q.free, e)
  }

  /** The cursor moves to entry `c`, or the sweep ends. */
  function Goto(c: int, now: nat): Worker {
    if c < 0 then Idle else At(c, Test, now)
  }

  /** One atomic step of the sweep in `nvmev_io_worker`. */
  function WorkerStep(q: Queue): Queue
    requires q.worker.At? ==> q.worker.e < |q.slots|
  {
    match q.worker
    case Idle => q.(worker := Goto(if q.io == [] then -1 else q.io[0], q.clock))
    case At(e, Test, _) =>
      var s := q.slots[e];
      q.(latest := q.clock,
         worker := At(e, if s.completed then Move else if !s.copied then Copy else Finish, q.clock))
    case At(e, Copy, now) =>
      q.(slots := q.slots[e := q.slots[e].(copied := true)],
         log := if q.slots[e].internalOp then q.log else q.log + [Copied(q.slots[e].rid)],
         worker := At(e, Finish, now))
    case At(e, Finish, now) =>
      if q.slots[e].target <= now then
        q.(slots := q.slots[e := q.slots[e].(completed := true)],
           log := q.log + [Completed(q.slots[e].rid, now)],
           worker := At(e, Move, now))
      else
        q.(worker := At(e, Move, now))
    case At(e, Move, now) => q.(worker := Goto(NextOf(q, e), now))
  }

  // ---------- the invariant ----------

  /** The free list and the in-flight list partition all entries; the free list is not empty. */
  ghost predicate Partition(q: Queue) {
    && NoDup(q.free) && NoDup(q.io) && q.free != []
    && (forall e :: 0 <= e < |q.slots| ==> (e in q.free <==> e !in q.io))
    && (forall i :: 0 <= i < |q.free| ==> q.free[i] < |q.slots|)
    && (forall i :: 0 <= i < |q.io| ==> q.io[i] < |q.slots|)
  }

  /** The in-flight list is sorted by due time, where all due entries count as equal. */
  ghost predicate Sorted(q: Queue)
    requires Partition(q)
  {
    forall i, j :: 0 <= i < j < |q.io| ==>
      Max(q.slots[q.io[i]].target, q.latest) <= Max(q.slots[q.io[j]].target, q.latest)
  }

  /** After a completed entry the free list holds only completed ones: the entries never used come first. */
  ghost predicate FreeTail(q: Queue)
    requires Partition(q)
  {
    forall i, j :: 0 <= i < j < |q.free| && q.slots[q.free[i]].completed ==> q.slots[q.free[j]].completed
  }

  /** The cursor is at an in-flight entry, or at a completed one that has been reclaimed meanwhile. */
  ghost predicate CursorOk(q: Queue) {
    && q.latest <= q.clock
    && (q.worker.At? ==>
          var At(e, phase, now) := q.worker;
          && e < |q.slots| && now <= q.clock
          && (e in q.io || q.slots[e].completed)
          && (phase == Copy || phase == Finish ==> !q.slots[e].completed && now == q.latest)
          && (phase == Copy ==> !q.slots[e].copied)
          && (phase == Finish ==> q.slots[e].copied))
  }

  ghost predicate CompletedAt(log: seq<Event>, i: nat, rid: nat) {
    i < |log| && log[i].Completed? && log[i].rid == rid
  }

  /** The request has been completed. */
  ghost predicate Logged(log: seq<Event>, rid: nat) {
    exists i :: CompletedAt(log, i, rid)
  }

  /** The slot of an in-flight request. */
  ghost predicate SlotOk(s: Slot, targets: seq<nat>, log: seq<Event>, latest: nat) {
    && s.rid < |targets| && s.target == targets[s.rid]
    && (s.completed <==> Logged(log, s.rid))
    && (s.completed ==> s.copied && s.target <= latest)
  }

  /** In-flight entries belong to different requests. */
  ghost predicate InFlight(q: Queue)
    requires Partition(q)
  {
    && (forall i :: 0 <= i < |q.io| ==> SlotOk(q.slots[q.io[i]], q.targets, q.log, q.latest))
    && (forall i, j :: 0 <= i < j < |q.io| ==> q.slots[q.io[i]].rid != q.slots[q.io[j]].rid)
  }

  /** Event `i` completes a request, not before its target time, and no later event completes it again. */
  ghost predicate CompletionOk(log: seq<Event>, targets: seq<nat>, clock: nat, i: nat)
    requires i < |log|
  {
    log[i].Completed? ==>
      && log[i].rid < |targets| && targets[log[i].rid] <= log[i].time <= clock
      && forall j :: 0 <= j < i ==> !CompletedAt(log, j, log[i].rid)
  }

  /** Every request is completed at most once and never before its target time. */
  ghost predicate LogOk(log: seq<Event>, targets: seq<nat>, clock: nat) {
    forall i :: 0 <= i < |log| ==> CompletionOk(log, targets, clock, i)
  }

  /** The data of the request have been moved among the first `n` events. */
  ghost predicate Moved(log: seq<Event>, n: nat, rid: nat)
    requires n <= |log|
  {
    exists j :: 0 <= j < n && log[j] == Copied(rid)
  }

  /** Event `i` is the first one to move the data of a host request, or completes a request whose data have been moved
      if it is a host request. */
  ghost predicate EventOk(log: seq<Event>, kinds: seq<bool>, i: nat)
    requires i < |log|
  {
    && log[i].rid < |kinds|
    && (if log[i].Copied? then !kinds[log[i].rid] && !Moved(log, i, log[i].rid)
        else kinds[log[i].rid] || Moved(log, i, log[i].rid))
  }

  /** The flags of the slot tell what has been done for its request. */
  ghost predicate FlagsOk(s: Slot, kinds: seq<bool>, log: seq<Event>) {
    && s.rid < |kinds| && s.internalOp == kinds[s.rid]
    && (s.copied <==> kinds[s.rid] || Moved(log, |log|, s.rid))
  }

  ghost predicate DataOk(q: Queue)
    requires Partition(q)
  {
    && |q.kinds| == |q.targets|
    && (forall i :: 0 <= i < |q.log| ==> EventOk(q.log, q.kinds, i))
    && (forall i :: 0 <= i < |q.io| ==> FlagsOk(q.slots[q.io[i]], q.kinds, q.log))
  }

  ghost predicate Holds(q: Queue, e: nat, rid: nat) {
    e in q.io && e < |q.slots| && q.slots[e].rid == rid && !q.slots[e].completed
  }

  /** A request that is not completed yet sits in an in-flight entry. */
  ghost predicate Covered(q: Queue) {
    forall rid :: 0 <= rid < |q.targets| ==> Logged(q.log, rid) || exists e :: Holds(q, e, rid)
  }

  ghost predicate Inv(q: Queue) {
    && Partition(q) && Sorted(q) && FreeTail(q) && CursorOk(q)
    && InFlight(q) && LogOk(q.log, q.targets, q.clock) && Covered(q) && DataOk(q)
  }
}
