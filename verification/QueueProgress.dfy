/** What the worker achieves whatever the dispatcher does between its steps: every due request is completed after a
    bounded number of sweeps. */
module QueueProgress {
  import opened Arith
  import opened Counting
  import opened QueueModel
  import opened QueueRuns
  import opened QueueSweep

  /** Position `i` of the in-flight list holds request `rid`, which is not completed. */
  ghost predicate Waits(q: Queue, i: nat, rid: nat) {
    && i < |q.io| && q.io[i] < |q.slots|
    && q.slots[q.io[i]].rid == rid && !q.slots[q.io[i]].completed
  }

  ghost predicate Waiting(q: Queue, rid: nat) {
    exists i :: Waits(q, i, rid)
  }

  ghost function Place(q: Queue, rid: nat): (i: nat)
    requires Waiting(q, rid)
    ensures Waits(q, i, rid)
  {
    var i :| Waits(q, i, rid);
    i
  }

  lemma PlaceUnique(q: Queue, i: nat, rid: nat)
    requires Inv(q) && Waits(q, i, rid)
    ensures Waiting(q, rid) && Place(q, rid) == i
  {
    var j := Place(q, rid);
    assert q.io[i] == q.io[j];
  }

  lemma WaitingUnlessLogged(q: Queue, rid: nat)
    requires Inv(q) && rid < |q.targets|
    ensures Waiting(q, rid) <==> !Logged(q.log, rid)
  {
    if Waiting(q, rid) {
      var i := Place(q, rid);
      assert SlotOk(q.slots[q.io[i]], q.targets, q.log, q.latest);
    } else if !Logged(q.log, rid) {
      var e :| Holds(q, e, rid);
      var i :| 0 <= i < |q.io| && q.io[i] == e;
      assert Waits(q, i, rid);
    }
  }

  /** The uncompleted requests at the first `n` positions. */
  ghost function Front(q: Queue, n: nat): (f: set<nat>)
    requires n <= |q.io| && Partition(q)
    ensures |f| <= n
  {
    if n == 0 then {}
    else
      var s := q.slots[q.io[n - 1]];
      if s.completed then Front(q, n - 1) else Front(q, n - 1) + {s.rid}
  }

  ghost predicate FreshHead(q: Queue) {
    q.io != [] && q.io[0] < |q.slots| && !q.slots[q.io[0]].completed
  }

  ghost predicate Cursor(q: Queue, j: nat) {
    q.worker.At? && j < |q.io| && q.io[j] == q.worker.e
  }

  /** The worker is dealing with an uncompleted entry at position `i` or before. */
  ghost predicate AtFront(q: Queue, i: nat) {
    && q.worker.At? && q.worker.phase != Move && q.worker.e < |q.slots| && !q.slots[q.worker.e].completed
    && exists j :: 0 <= j <= i && Cursor(q, j)
  }

  ghost predicate DoneTo(q: Queue, j: nat)
    requires q.worker.At?
  {
    && Cursor(q, j)
    && forall i :: 0 <= i <= j ==> q.io[i] < |q.slots| && q.slots[q.io[i]].completed
  }

  /** The worker has come across completed entries only, and they are still in flight. */
  ghost predicate Passed(q: Queue)
    requires q.worker.At?
  {
    exists j :: DoneTo(q, j)
  }

  /** How the worker stands: -1 if its sweep completes a request up to position `i` or is about to begin and will;
      0 if it does or else leaves an uncompleted entry at the head; 1 if it may have passed them. */
  ghost function Standing(q: Queue, i: nat): int {
    if q.worker.Idle? || AtFront(q, i) then -Bit(FreshHead(q))
    else if Passed(q) || FreshHead(q) then 0
    else 1
  }

  function Bit(b: bool): int {
    if b then 1 else 0
  }

  /** How many sweeps may end before request `rid` is completed. */
  ghost function Rank(q: Queue, rid: nat): int
    requires Inv(q) && rid < |q.targets|
  {
    if !Waiting(q, rid) then 0
    else if q.latest < q.targets[rid] then
      2 * |q.slots| - 1 + Bit(q.worker.At? && q.worker.phase != Test)
    else 2 * |Front(q, Place(q, rid) + 1)| + Standing(q, Place(q, rid))
  }

  lemma FrontSize(q: Queue, rid: nat)
    requires Inv(q) && Waiting(q, rid)
    ensures var i := Place(q, rid); i < |q.io| < |q.slots| && 1 <= |Front(q, i + 1)| <= i + 1
  {
    var i := Place(q, rid);
    SubsetSize({rid}, Front(q, i + 1));
    Partitioned(|q.slots|, q.free, q.io);
  }

  // ---------- the steps ----------

  /** Request `rid` waits at position `i` and was due when the worker last looked at the clock. */
  ghost predicate DueAt(q: Queue, i: nat, rid: nat) {
    Inv(q) && Waits(q, i, rid) && q.slots[q.io[i]].target <= q.latest
  }

  /** The worker stands at least as well in `t` as in `q`. */
  lemma StandsSame(q: Queue, i: nat, t: Queue, k: nat)
    requires t.worker == q.worker
    requires AtFront(q, i) ==> AtFront(t, k)
    requires FreshHead(q) ==> FreshHead(t)
    requires q.worker.At? && Passed(q) ==> Passed(t) || FreshHead(t)
    ensures Standing(t, k) <= Standing(q, i)
  {
    hide AtFront, FreshHead, Passed;
  }

  /** The first `n` positions, and what the worker is doing, are the same. */
  ghost predicate SameTo(q: Queue, t: Queue, n: nat) {
    && n <= |q.io| && n <= |t.io| && t.worker == q.worker
    && forall j :: 0 <= j < n ==>
         t.io[j] == q.io[j] && q.io[j] < |q.slots| && q.io[j] < |t.slots| && t.slots[q.io[j]] == q.slots[q.io[j]]
  }

  lemma SameStanding(q: Queue, t: Queue, i: nat)
    requires SameTo(q, t, i + 1) && !q.slots[q.io[i]].completed
    ensures Standing(t, i) <= Standing(q, i)
  {
    if q.worker.At? && Passed(q) {
      var j: nat :| DoneTo(q, j);
      assert j < i;
      assert Cursor(t, j) && DoneTo(t, j);
    }
    if AtFront(q, i) {
      var j :| 0 <= j <= i && Cursor(q, j);
      assert Cursor(t, j);
    }
    hide Standing;
    StandsSame(q, i, t, i);
  }

  /** A due request keeps its place when another one comes in, and so do those before it. */
  lemma SubmitStays(q: Queue, i: nat, rid: nat, target: nat, internalOp: bool)
    requires DueAt(q, i, rid) && CanEnqueue(q)
    ensures q.free[0] < |q.slots| && SameTo(q, Enqueue(q, target, internalOp), i + 1)
  {
    FirstFree(q);
    InsertPosSplits(q.slots, q.io, q.latest, target);
    var k := InsertPos(q.slots, q.io, q.latest, target);
    assert i < k;
    hide InsertPos, Sorted, FreeTail, CursorOk, InFlight, LogOk, Covered, DataOk;
    var t := Enqueue(q, target, internalOp);
    forall j | 0 <= j < i + 1
      ensures t.io[j] == q.io[j] && q.io[j] < |q.slots| && q.io[j] < |t.slots| && t.slots[q.io[j]] == q.slots[q.io[j]]
    {
      assert q.io[j] in q.io;
    }
  }

  lemma {:induction false} FrontSame(q: Queue, t: Queue, n: nat)
    requires Partition(q) && Partition(t) && n <= |q.io| && n <= |t.io|
    requires forall j :: 0 <= j < n ==> t.io[j] == q.io[j] && t.slots[q.io[j]].rid == q.slots[q.io[j]].rid
    requires forall j :: 0 <= j < n ==> (t.slots[q.io[j]].completed <==> q.slots[q.io[j]].completed)
    ensures Front(t, n) == Front(q, n)
  {
    if n > 0 {
      FrontSame(q, t, n - 1);
    }
  }

  /** The score that no step increases. */
  ghost function Score(q: Queue, i: nat): int
    requires Partition(q) && i < |q.io|
  {
    2 * |Front(q, i + 1)| + Standing(q, i)
  }

  lemma SubmitScore(q: Queue, i: nat, rid: nat, target: nat, internalOp: bool)
    requires DueAt(q, i, rid) && CanEnqueue(q)
    ensures q.free[0] < |q.slots| && Inv(Enqueue(q, target, internalOp))
    ensures var t := Enqueue(q, target, internalOp); Waits(t, i, rid) && Score(t, i) <= Score(q, i)
  {
    hide Enqueue, Sorted, FreeTail, CursorOk, InFlight, LogOk, Covered, DataOk, Standing;
    EnqueueInv(q, target, internalOp);
    SubmitStays(q, i, rid, target, internalOp);
    var t := Enqueue(q, target, internalOp);
    FrontSame(q, t, i + 1);
    SameStanding(q, t, i);
  }

  lemma {:induction false} FrontAfter(q: Queue, t: Queue, k: nat, n: nat)
    requires Partition(q) && Partition(t) && k + n <= |q.io| && n <= |t.io| && t.slots == q.slots
    requires forall j :: 0 <= j < n ==> t.io[j] == q.io[k + j]
    requires forall j :: 0 <= j < k ==> q.slots[q.io[j]].completed
    ensures Front(t, n) == Front(q, k + n)
  {
    if n > 0 {
      FrontAfter(q, t, k, n - 1);
    } else {
      NoneInFront(q, k);
    }
  }

  lemma {:induction false} NoneInFront(q: Queue, k: nat)
    requires Partition(q) && k <= |q.io| && forall j :: 0 <= j < k ==> q.slots[q.io[j]].completed
    ensures Front(q, k) == {}
  {
    if k > 0 {
      NoneInFront(q, k - 1);
    }
  }

  /** After a reclaim the head is not completed. */
  lemma ReclaimFresh(q: Queue, i: nat, rid: nat)
    requires Inv(q) && Waits(q, i, rid)
    ensures var k := ReclaimLen(q.slots, q.io, q.latest); k <= i && Waits(Reclaim(q), i - k, rid)
    ensures FreshHead(Reclaim(q))
  {
    var k := ReclaimLen(q.slots, q.io, q.latest);
    assert SlotOk(q.slots[q.io[k]], q.targets, q.log, q.latest);
  }

  lemma ReclaimScore(q: Queue, i: nat, rid: nat)
    requires DueAt(q, i, rid)
    ensures Inv(Reclaim(q))
    ensures var k, t := ReclaimLen(q.slots, q.io, q.latest), Reclaim(q);
      k <= i && Waits(t, i - k, rid) && Score(t, i - k) <= Score(q, i)
  {
    hide ReclaimLen, Sorted, FreeTail, CursorOk, InFlight, LogOk, Covered, DataOk, Standing;
    ReclaimInv(q);
    ReclaimFresh(q, i, rid);
    var k, t := ReclaimLen(q.slots, q.io, q.latest), Reclaim(q);
    FrontAfter(q, t, k, i - k + 1);
    ReclaimStanding(q, t, i, k);
  }

  lemma ReclaimStanding(q: Queue, t: Queue, i: nat, k: nat)
    requires k <= i < |q.io| && t.slots == q.slots && t.io == q.io[k..] && t.worker == q.worker && FreshHead(t)
    requires forall j :: 0 <= j < k ==> q.io[j] < |q.slots| && q.slots[q.io[j]].completed
    ensures Standing(t, i - k) <= Standing(q, i)
  {
    if AtFront(q, i) {
      var j :| 0 <= j <= i && Cursor(q, j);
      assert j >= k;
      assert Cursor(t, j - k);
    }
    hide Standing;
    StandsSame(q, i, t, i - k);
  }

  /** A sweep ends with this step of the worker. */
  predicate Ends(q: Queue, t: Queue) {
    q.worker.At? && t.worker.Idle?
  }

  /** What a step of the worker must do to the score. */
  ghost predicate Scores(q: Queue, t: Queue, i: nat)
    requires Partition(q) && Partition(t) && i < |q.io| && i < |t.io|
  {
    Score(t, i) + Bit(Ends(q, t)) <= Score(q, i)
  }

  /** A sweep begins at the head, which either waits or has been completed. */
  lemma BeginScore(q: Queue, i: nat, rid: nat)
    requires DueAt(q, i, rid) && q.worker.Idle?
    ensures var t := WorkerStep(q); Partition(t) && Waits(t, i, rid) && Scores(q, t, i)
  {
    hide Sorted, FreeTail, CursorOk, InFlight, LogOk, Covered, DataOk;
    var t := WorkerStep(q);
    FrontSame(q, t, i + 1);
    assert Cursor(t, 0);
    if !FreshHead(q) {
      assert DoneTo(t, 0);
    }
  }

  /** Looking at an entry and copying it changes nothing that counts. */
  lemma LookScore(q: Queue, i: nat, rid: nat)
    requires DueAt(q, i, rid) && q.worker.At? && (q.worker.phase == Test || q.worker.phase == Copy)
    ensures q.worker.e < |q.slots|
    ensures var t := WorkerStep(q); Partition(t) && Waits(t, i, rid) && Scores(q, t, i)
  {
    hide Sorted, FreeTail, InFlight, LogOk, Covered, DataOk;
    var t := WorkerStep(q);
    FrontSame(q, t, i + 1);
    if AtFront(q, i) {
      var j :| 0 <= j <= i && Cursor(q, j);
      assert Cursor(t, j);
    }
    if Passed(q) {
      var j: nat :| DoneTo(q, j);
      assert Cursor(t, j) && DoneTo(t, j);
    }
  }

  lemma {:induction false} FrontLess(q: Queue, t: Queue, n: nat, r: nat)
    requires Partition(q) && Partition(t) && n <= |q.io| && t.io == q.io
    requires forall j :: 0 <= j < n ==> t.slots[q.io[j]].rid == q.slots[q.io[j]].rid
    requires forall j :: 0 <= j < n ==> (t.slots[q.io[j]].completed <==>
                                           q.slots[q.io[j]].completed || q.slots[q.io[j]].rid == r)
    ensures Front(t, n) == Front(q, n) - {r}
  {
    if n > 0 {
      FrontLess(q, t, n - 1, r);
    }
  }

  lemma {:induction false} InFront(q: Queue, n: nat, c: nat)
    requires Partition(q) && c < n <= |q.io| && !q.slots[q.io[c]].completed
    ensures q.slots[q.io[c]].rid in Front(q, n)
  {
    if c < n - 1 {
      InFront(q, n - 1, c);
    }
  }

  lemma OnlyOne(q: Queue, c: nat)
    requires Inv(q) && c < |q.io|
    ensures forall j :: 0 <= j < |q.io| && q.slots[q.io[j]].rid == q.slots[q.io[c]].rid ==> j == c
  {
    hide Sorted, FreeTail, CursorOk, LogOk, Covered, DataOk;
  }

  /** Completing an entry at position `c` takes its request out of the front. */
  lemma CompleteFront(q: Queue, t: Queue, i: nat, c: nat)
    requires Inv(q) && Partition(t) && t.io == q.io && c <= i < |q.io|
    requires t.slots == q.slots[q.io[c] := q.slots[q.io[c]].(completed := true)] && !q.slots[q.io[c]].completed
    ensures |Front(t, i + 1)| < |Front(q, i + 1)|
  {
    hide Sorted, FreeTail, CursorOk, InFlight, LogOk, Covered, DataOk, Front;
    var r := q.slots[q.io[c]].rid;
    OnlyOne(q, c);
    FrontLess(q, t, i + 1, r);
    InFront(q, i + 1, c);
    var f, g := Front(q, i + 1), Front(t, i + 1);
    assert g + {r} == f && r !in g;
  }

  lemma CompleteScore(q: Queue, t: Queue, i: nat, c: nat)
    requires Inv(q) && Partition(t) && t.io == q.io && c <= i < |q.io|
    requires t.slots == q.slots[q.io[c] := q.slots[q.io[c]].(completed := true)] && !q.slots[q.io[c]].completed
    requires t.worker.At?
    ensures Scores(q, t, i)
  {
    CompleteFront(q, t, i, c);
    hide Inv, AtFront, FreshHead, Passed, Front;
  }

  /** The worker is done with an entry behind request `rid`, or with one that is not due. */
  lemma PassScore(q: Queue, t: Queue, i: nat, rid: nat)
    requires DueAt(q, i, rid) && q.worker.At? && q.worker.phase == Finish && !AtFront(q, i)
    requires t.worker.At? && t.worker.phase == Move && t.io == q.io && Partition(t)
    requires forall j :: 0 <= j <= i ==> t.slots[q.io[j]] == q.slots[q.io[j]]
    ensures Scores(q, t, i)
  {
    hide Sorted, FreeTail, InFlight, LogOk, Covered, DataOk;
    FrontSame(q, t, i + 1);
  }

  /** An entry before request `rid` is due as well. */
  lemma FrontDue(q: Queue, i: nat, rid: nat)
    requires DueAt(q, i, rid) && AtFront(q, i)
    ensures q.slots[q.worker.e].target <= q.latest
  {
    var j :| 0 <= j <= i && Cursor(q, j);
    if j < i {
      assert Max(q.slots[q.io[j]].target, q.latest) <= Max(q.slots[q.io[i]].target, q.latest);
    }
  }

  lemma FinishScore(q: Queue, i: nat, rid: nat)
    requires DueAt(q, i, rid) && q.worker.At? && q.worker.phase == Finish && Waits(WorkerStep(q), i, rid)
    ensures var t := WorkerStep(q); Partition(t) && Scores(q, t, i)
  {
    WorkerStepInv(q);
    var t := WorkerStep(q);
    if AtFront(q, i) {
      FrontDue(q, i, rid);
      var c :| 0 <= c <= i && Cursor(q, c);
      hide Sorted, FreeTail, InFlight, LogOk, Covered, DataOk, Scores;
      CompleteScore(q, t, i, c);
    } else {
      hide Sorted, FreeTail, InFlight, LogOk, Covered, DataOk, Scores;
      forall j | 0 <= j <= i
        ensures t.slots[q.io[j]] == q.slots[q.io[j]]
      {
        assert !Cursor(q, j);
      }
      PassScore(q, t, i, rid);
    }
  }

  lemma MoveScore(q: Queue, i: nat, rid: nat)
    requires DueAt(q, i, rid) && q.worker.At? && q.worker.phase == Move
    ensures q.worker.e < |q.slots|
    ensures var t := WorkerStep(q); Partition(t) && Waits(t, i, rid) && Scores(q, t, i)
  {
    hide Sorted, FreeTail, InFlight, LogOk, Covered, DataOk;
    var t := WorkerStep(q);
    FrontSame(q, t, i + 1);
    if Passed(q) {
      var j: nat :| DoneTo(q, j);
      assert j < i;
      NextInFlight(q, j);
      assert Cursor(t, j + 1);
      if t.slots[t.io[j + 1]].completed {
        assert DoneTo(t, j + 1);
      }
    }
  }

  lemma WorkScore(q: Queue, i: nat, rid: nat)
    requires DueAt(q, i, rid) && Inv(WorkerStep(q)) && (q.worker.At? ==> q.worker.e < |q.slots|)
    requires Waits(WorkerStep(q), i, rid)
    ensures Scores(q, WorkerStep(q), i)
  {
    hide Inv, WorkerStep, Scores;
    if q.worker.Idle? {
      BeginScore(q, i, rid);
    } else if q.worker.phase == Move {
      MoveScore(q, i, rid);
    } else if q.worker.phase == Finish {
      FinishScore(q, i, rid);
    } else {
      LookScore(q, i, rid);
    }
  }

  // ---------- runs ----------

  /** What no step takes back. */
  ghost predicate Grows(q: Queue, t: Queue) {
    q.targets <= t.targets && q.log <= t.log && q.clock <= t.clock && q.latest <= t.latest && |t.slots| == |q.slots|
  }

  lemma StepGrows(q: Queue, a: Action)
    requires Inv(q)
    ensures Grows(q, Step(q, a))
    ensures !a.Work? ==> Step(q, a).worker == q.worker && Step(q, a).latest == q.latest
  {
    hide Partition, Sorted, FreeTail, InFlight, LogOk, Covered, DataOk, InsertPos, ReclaimLen;
  }

  lemma StillWaits(q: Queue, t: Queue, rid: nat)
    requires Inv(q) && Inv(t) && Grows(q, t) && rid < |q.targets| && Waiting(t, rid)
    ensures Waiting(q, rid) && t.targets[rid] == q.targets[rid]
  {
    hide Inv, Waiting;
    WaitingUnlessLogged(q, rid);
    WaitingUnlessLogged(t, rid);
    LoggedGrows(q.log, t.log, rid);
  }

  lemma LoggedGrows(a: seq<Event>, b: seq<Event>, rid: nat)
    requires a <= b
    ensures Logged(a, rid) ==> Logged(b, rid)
  {
    if Logged(a, rid) {
      var k: nat :| CompletedAt(a, k, rid);
      assert CompletedAt(b, k, rid);
    }
  }

  lemma WaitingTarget(q: Queue, rid: nat)
    requires Inv(q) && Waiting(q, rid)
    ensures rid < |q.targets| && q.slots[q.io[Place(q, rid)]].target == q.targets[rid]
  {
    var i := Place(q, rid);
    assert SlotOk(q.slots[q.io[i]], q.targets, q.log, q.latest);
  }

  lemma DueRank(q: Queue, a: Action, rid: nat)
    requires Inv(q) && rid < |q.targets| && Waiting(q, rid) && Waiting(Step(q, a), rid) && q.targets[rid] <= q.latest
    ensures Rank(Step(q, a), rid) + Bit(Ends(q, Step(q, a))) <= Rank(q, rid)
  {
    hide Sorted, FreeTail, CursorOk, InFlight, LogOk, Covered, DataOk, Enqueue, Reclaim, WorkerStep, Standing;
    var i, t := Place(q, rid), Step(q, a);
    WaitingTarget(q, rid);
    StepGrows(q, a);
    var k := i;
    match a {
      case Submit(target, internalOp) =>
        if CanEnqueue(q) {
          SubmitScore(q, i, rid, target, internalOp);
        }
      case ReclaimDone =>
        ReclaimScore(q, i, rid);
        k := i - ReclaimLen(q.slots, q.io, q.latest);
      case Work =>
        WorkWaits(q, i, rid);
        WorkScore(q, i, rid);
      case Elapse(d) =>
        TickScore(q, i, rid, d);
    }
    assert Waits(t, k, rid) && Score(t, k) + Bit(Ends(q, t)) <= Score(q, i);
    PlaceUnique(t, k, rid);
  }

  lemma TickScore(q: Queue, i: nat, rid: nat, d: nat)
    requires DueAt(q, i, rid)
    ensures var t := Tick(q, d); Partition(t) && Waits(t, i, rid) && Score(t, i) <= Score(q, i)
  {
    var t := Tick(q, d);
    FrontSame(q, t, i + 1);
    SameStanding(q, t, i);
  }

  /** The worker leaves the list as it is. */
  lemma WorkWaits(q: Queue, i: nat, rid: nat)
    requires Inv(q) && Waits(q, i, rid) && Waiting(Step(q, Work), rid)
    ensures Waits(Step(q, Work), i, rid)
    ensures q.worker.At? ==> q.worker.e < |q.slots|
  {
    hide Sorted, FreeTail, InFlight, LogOk, Covered, DataOk;
    var t := Step(q, Work);
    var j := Place(t, rid);
    assert t.io == q.io && t.slots[t.io[j]].rid == q.slots[q.io[j]].rid && Waits(q, j, rid);
    PlaceUnique(q, i, rid);
    PlaceUnique(q, j, rid);
  }

  /** Until the worker looks at the clock again. */
  lemma EarlyRank(q: Queue, a: Action, rid: nat)
    requires Inv(q) && rid < |q.targets| && Waiting(q, rid) && Waiting(Step(q, a), rid)
    requires q.latest < q.targets[rid] <= q.clock
    ensures Rank(Step(q, a), rid) + Bit(Ends(q, Step(q, a))) <= Rank(q, rid)
  {
    hide Sorted, FreeTail, InFlight, LogOk, Covered, DataOk, Enqueue, Reclaim, Waits;
    var t := Step(q, a);
    StepGrows(q, a);
    FrontSize(q, rid);
    FrontSize(t, rid);
  }

  lemma RankStep(q: Queue, a: Action, rid: nat)
    requires Inv(q) && rid < |q.targets| && q.targets[rid] <= q.clock && Waiting(Step(q, a), rid)
    ensures rid < |Step(q, a).targets|
    ensures Rank(Step(q, a), rid) + Bit(Ends(q, Step(q, a))) <= Rank(q, rid)
  {
    hide Inv, Step, Rank, Waiting;
    StepGrows(q, a);
    StillWaits(q, Step(q, a), rid);
    if q.targets[rid] <= q.latest {
      DueRank(q, a, rid);
    } else {
      EarlyRank(q, a, rid);
    }
  }

  lemma RankBounds(q: Queue, rid: nat)
    requires Inv(q) && rid < |q.targets| && Waiting(q, rid)
    ensures 1 <= Rank(q, rid) <= 2 * |q.slots|
  {
    FrontSize(q, rid);
    hide Inv, Waiting;
  }

  /** How many sweeps end in a run. */
  ghost function Sweeps(q: Queue, actions: seq<Action>): nat
    requires Inv(q)
  {
    if actions == [] then 0
    else
      var k := |actions| - 1;
      Sweeps(q, actions[..k]) + if Ends(Run(q, actions[..k]), Run(q, actions)) then 1 else 0
  }

  lemma {:induction false} RunRank(q: Queue, actions: seq<Action>, rid: nat)
    requires Inv(q) && rid < |q.targets| && q.targets[rid] <= q.clock
    ensures Grows(q, Run(q, actions))
    ensures Waiting(Run(q, actions), rid) ==>
      Waiting(q, rid) && Rank(Run(q, actions), rid) + Sweeps(q, actions) <= Rank(q, rid)
  {
    hide Inv, Step, Rank, Waiting;
    if actions != [] {
      var k := |actions| - 1;
      RunRank(q, actions[..k], rid);
      var s := Run(q, actions[..k]);
      StepGrows(s, actions[k]);
      if Waiting(Run(q, actions), rid) {
        StillWaits(s, Step(s, actions[k]), rid);
        RankStep(s, actions[k], rid);
      }
    }
  }

  /** Whatever the dispatcher and the clock do between the worker's steps, a request that is due is completed by the
      time twice as many sweeps have ended as the queue has entries. */
  lemma DueIsCompleted(q: Queue, actions: seq<Action>, rid: nat)
    requires Inv(q) && rid < |q.targets| && q.targets[rid] <= q.clock
    requires Sweeps(q, actions) >= 2 * |q.slots|
    ensures Logged(Run(q, actions).log, rid)
  {
    hide Inv, Run, Rank, Waiting, Sweeps;
    RunRank(q, actions, rid);
    var t := Run(q, actions);
    WaitingUnlessLogged(t, rid);
    if Waiting(t, rid) {
      RankBounds(q, rid);
      RankBounds(t, rid);
      assert false;
    }
  }
}
