/** The indexed binary min-heap of pqueue/pqueue.c, with the callbacks conv_ftl.c installs:
    the elements are line ids, an element's priority is its line's `vpc`, and each element stores
    its own place in the heap (`pos`), zero while it is outside. */
module VictimQueue {
  import opened Counting

  const NONE: int := -1

  // ---------- the heap as a value ----------

  /** Heap slots and back-indices agree. Element `gone` has left the heap but still has its old `pos`. */
  ghost predicate Indexed(d: seq<nat>, size: nat, pos: seq<nat>, gone: int) {
    && 1 <= size <= |d|
    && (forall j :: 1 <= j < size ==> d[j] < |pos| && d[j] != gone && pos[d[j]] == j)
    && (forall e :: 0 <= e < |pos| && e != gone && pos[e] != 0 ==> pos[e] < size && d[pos[e]] == e)
  }

  ghost predicate Ordered(d: seq<nat>, size: nat, pri: seq<int>)
    requires size <= |d| && forall j :: 1 <= j < size ==> d[j] < |pri|
  {
    forall j :: 2 <= j < size ==> pri[d[j / 2]] <= pri[d[j]]
  }

  /** Indexed, while element `m` is being moved and is thought of as standing at slot `at`. */
  ghost predicate IndexedBut(d: seq<nat>, size: nat, pos: seq<nat>, m: nat, at: nat, gone: int) {
    && 1 <= size <= |d|
    && (forall j :: 1 <= j < size ==> d[j] < |pos| && d[j] != gone)
    && (forall j :: 1 <= j < size && j != at ==> pos[d[j]] == j && d[j] != m)
    && (forall e :: 0 <= e < |pos| && e != m && e != gone && pos[e] != 0 ==> pos[e] < size && d[pos[e]] == e)
  }

  /** Ordered, except that the element at `i` may be smaller than its parent. */
  ghost predicate OrderedBelow(d: seq<nat>, size: nat, pri: seq<int>, i: nat)
    requires size <= |d| && forall j :: 1 <= j < size ==> d[j] < |pri|
  {
    && (forall j :: 2 <= j < size && j != i ==> pri[d[j / 2]] <= pri[d[j]])
    && (forall j :: 4 <= j < size && j / 2 == i ==> pri[d[i / 2]] <= pri[d[j]])
  }

  /** Ordered, except that the element at `i` may be larger than its children. */
  ghost predicate OrderedAbove(d: seq<nat>, size: nat, pri: seq<int>, i: nat)
    requires size <= |d| && forall j :: 1 <= j < size ==> d[j] < |pri|
  {
    && (forall j :: 2 <= j < size && j / 2 != i ==> pri[d[j / 2]] <= pri[d[j]])
    && (forall j :: 4 <= j < size && j / 2 == i ==> pri[d[i / 2]] <= pri[d[j]])
  }

  ghost function MemberSet(pos: seq<nat>): set<nat> {
    set e | 0 <= e < |pos| && pos[e] != 0
  }

  /** The root of an ordered heap has the least priority. */
  lemma {:induction false} RootIsMinimum(d: seq<nat>, size: nat, pri: seq<int>, j: nat)
    requires size <= |d| && forall j :: 1 <= j < size ==> d[j] < |pri|
    requires Ordered(d, size, pri) && 1 <= j < size
    ensures pri[d[1]] <= pri[d[j]]
  {
    if j > 1 {
      RootIsMinimum(d, size, pri, j / 2);
    }
  }

  /** Elements of the heap are different, so a heap over `n` elements has at most `n` of them, and
      fewer when one is outside. This is why `pqueue_insert` needs no reallocation. */
  lemma CapacitySuffices(d: seq<nat>, size: nat, pos: seq<nat>)
    requires Indexed(d, size, pos, NONE)
    ensures size <= |pos| + 1
    ensures (exists e :: 0 <= e < |pos| && pos[e] == 0) ==> size <= |pos|
  {
    var inside := d[1..size];
    assert NoDup(inside) by {
      forall i, j | 0 <= i < j < |inside|
        ensures inside[i] != inside[j]
      {
        assert pos[d[i + 1]] == i + 1 && pos[d[j + 1]] == j + 1;
      }
    }
    NoDupSize(inside);
    SubsetSize(Elements(inside), Upto(|pos|));
    if e :| 0 <= e < |pos| && pos[e] == 0 {
      SubsetSize(Elements(inside), Upto(|pos|) - {e});
    }
  }

  /** One step of `bubble_up`: the parent `a[i / 2]` moves down into slot `i`. */
  lemma BubbleStep(a: seq<nat>, size: nat, pos: seq<nat>, pri: seq<int>, m: nat, i: nat, gone: int, before: seq<nat>)
    requires SameMembers(before, pos, m, gone)
    requires IndexedBut(a, size, pos, m, i, gone) && |pri| == |pos|
    requires OrderedBelow(a, size, pri, i)
    requires 2 <= i < size && a[i] == m && pri[a[i / 2]] > pri[m]
    ensures var b := a[i := a[i / 2]][i / 2 := m];
      && IndexedBut(b, size, pos[a[i / 2] := i], m, i / 2, gone)
      && SameMembers(before, pos[a[i / 2] := i], m, gone)
      && OrderedBelow(b, size, pri, i / 2)
  {
    BubbleIndices(a, size, pos, m, i, gone);
    BubbleOrder(a, size, pri, m, i);
  }

  lemma BubbleIndices(a: seq<nat>, size: nat, pos: seq<nat>, m: nat, i: nat, gone: int)
    requires IndexedBut(a, size, pos, m, i, gone) && 2 <= i < size && a[i] == m
    ensures IndexedBut(a[i := a[i / 2]][i / 2 := m], size, pos[a[i / 2] := i], m, i / 2, gone)
  {
  }

  lemma BubbleOrder(a: seq<nat>, size: nat, pri: seq<int>, m: nat, i: nat)
    requires size <= |a| && forall j :: 1 <= j < size ==> a[j] < |pri|
    requires OrderedBelow(a, size, pri, i)
    requires 2 <= i < size && a[i] == m && pri[a[i / 2]] > pri[m]
    ensures OrderedBelow(a[i := a[i / 2]][i / 2 := m], size, pri, i / 2)
  {
  }

  /** The state of `percolate_down`: only slot `i` may be out of order, with its children. */
  ghost predicate Sinking(a: seq<nat>, size: nat, pos: seq<nat>, pri: seq<int>, m: nat, i: nat, gone: int, before: seq<nat>) {
    |pri| == |pos| && IndexedBut(a, size, pos, m, i, gone) && OrderedAbove(a, size, pri, i) && SameMembers(before, pos, m, gone)
  }

  lemma StartSinking(a: seq<nat>, size: nat, pos: seq<nat>, pri: seq<int>, m: nat, i: nat, gone: int)
    requires |pri| == |pos| && IndexedBut(a, size, pos, m, i, gone) && OrderedAbove(a, size, pri, i)
    ensures Sinking(a, size, pos, pri, m, i, gone, pos)
  {
    Unmoved(pos, m, gone);
  }

  /** One step of `percolate_down`: the smaller child `a[c]` moves up into slot `i`. */
  lemma PercolateStep(a: seq<nat>, size: nat, pos: seq<nat>, pri: seq<int>, m: nat, i: nat, c: nat, gone: int, before: seq<nat>)
    requires Sinking(a, size, pos, pri, m, i, gone, before) && size <= |a| && c < size
    requires forall j :: 1 <= j < size ==> a[j] < |pri|
    requires 1 <= i && IsMaxChild(a, size, pri, i, c) && a[i] == m && m < |pri| && pri[m] > pri[a[c]]
    ensures a[c] < |pos| && i < c
    ensures Sinking(a[i := a[c]][c := m], size, pos[a[c] := i], pri, m, c, gone, before)
  {
    PercolateIndices(a, size, pos, m, i, c, gone);
    PercolateOrder(a, size, pri, m, i, c);
  }

  lemma PercolateIndices(a: seq<nat>, size: nat, pos: seq<nat>, m: nat, i: nat, c: nat, gone: int)
    requires IndexedBut(a, size, pos, m, i, gone) && 1 <= i < c < size && a[i] == m
    ensures IndexedBut(a[i := a[c]][c := m], size, pos[a[c] := i], m, c, gone)
  {
  }

  lemma PercolateOrder(a: seq<nat>, size: nat, pri: seq<int>, m: nat, i: nat, c: nat)
    requires size <= |a| && forall j :: 1 <= j < size ==> a[j] < |pri|
    requires OrderedAbove(a, size, pri, i)
    requires 1 <= i && IsMaxChild(a, size, pri, i, c) && a[i] == m && pri[m] > pri[a[c]]
    ensures OrderedAbove(a[i := a[c]][c := m], size, pri, c)
  {
  }

  /** Only the moving element `m` may have entered; nothing else entered or left. */
  ghost predicate SameMembers(before: seq<nat>, after: seq<nat>, m: nat, gone: int) {
    && |before| == |after|
    && (forall e :: 0 <= e < |before| && e != m ==> (after[e] != 0) == (before[e] != 0))
    && (gone != m && 0 <= gone < |before| ==> after[gone] == before[gone])
  }

  lemma Unmoved(pos: seq<nat>, m: nat, gone: int)
    ensures SameMembers(pos, pos, m, gone)
  {
  }

  /** Where neither the parent nor a child is out of order, the moving element can be put down. */
  lemma PlaceMoving(a: seq<nat>, size: nat, pos: seq<nat>, pri: seq<int>, m: nat, i: nat, gone: int, before: seq<nat>)
    requires SameMembers(before, pos, m, gone)
    requires IndexedBut(a, size, pos, m, i, gone) && |pri| == |pos| && m < |pos|
    requires 1 <= i < |a| && i <= size && a[i] == m && (i == size ==> gone == m)
    requires forall j :: 2 <= j < size && j != i && j / 2 != i ==> pri[a[j / 2]] <= pri[a[j]]
    requires 2 <= i < size ==> pri[a[i / 2]] <= pri[m]
    requires forall j :: 2 <= j < size && j / 2 == i ==> pri[m] <= pri[a[j]]
    ensures Indexed(a, size, pos[m := i], gone)
    ensures Ordered(a, size, pri)
    ensures SameMembers(before, pos[m := i], m, gone)
  {
  }

  /** `bubble_up` may stop at the root or under a smaller parent. */
  lemma BubbleStop(a: seq<nat>, size: nat, pos: seq<nat>, pri: seq<int>, m: nat, i: nat, gone: int, before: seq<nat>)
    requires SameMembers(before, pos, m, gone)
    requires IndexedBut(a, size, pos, m, i, gone) && |pri| == |pos| && m < |pos|
    requires OrderedBelow(a, size, pri, i)
    requires 1 <= i < size && a[i] == m && (i > 1 ==> pri[a[i / 2]] <= pri[m])
    ensures Indexed(a, size, pos[m := i], gone)
    ensures Ordered(a, size, pri)
    ensures SameMembers(before, pos[m := i], m, gone)
  {
    PlaceMoving(a, size, pos, pri, m, i, gone, before);
  }

  /** `percolate_down` may stop at a leaf or over larger children. */
  lemma PercolateStop(a: seq<nat>, size: nat, pos: seq<nat>, pri: seq<int>, m: nat, i: nat, c: nat, gone: int, before: seq<nat>)
    requires Sinking(a, size, pos, pri, m, i, gone, before) && m < |pos|
    requires 1 <= i <= size && i < |a| && a[i] == m && (i == size ==> gone == m)
    requires 2 * i < size ==> IsMaxChild(a, size, pri, i, c) && pri[m] <= pri[a[c]]
    ensures Indexed(a, size, pos[m := i], gone)
    ensures Ordered(a, size, pri)
    ensures SameMembers(before, pos[m := i], m, gone)
  {
    PlaceMoving(a, size, pos, pri, m, i, gone, before);
  }

  /** Slot `c` holds the smallest child of slot `i`. */
  ghost predicate IsMaxChild(a: seq<nat>, size: nat, pri: seq<int>, i: nat, c: nat)
    requires size <= |a| && forall j :: 1 <= j < size ==> a[j] < |pri|
  {
    && 1 <= c < size && c / 2 == i
    && forall j :: 2 <= j < size && j / 2 == i ==> pri[a[c]] <= pri[a[j]]
  }

  lemma SlotsHoldElements(a: seq<nat>, size: nat, pos: seq<nat>, m: nat, at: nat, gone: int)
    requires IndexedBut(a, size, pos, m, at, gone)
    ensures size <= |a| && forall j :: 1 <= j < size ==> a[j] < |pos|
  {
  }

  /** After its priority changed, an element may be out of order with its parent or its children. */
  lemma Reprioritised(d: seq<nat>, size: nat, pos: seq<nat>, pri: seq<int>, e: nat, newPri: int)
    requires |pri| == |pos| && Indexed(d, size, pos, NONE) && Ordered(d, size, pri)
    requires e < |pos| && pos[e] != 0
    ensures 1 <= pos[e] < size && d[pos[e]] == e
    ensures IndexedBut(d, size, pos, e, pos[e], NONE)
    ensures pri[e] > newPri ==> OrderedBelow(d, size, pri[e := newPri], pos[e])
    ensures pri[e] <= newPri ==> OrderedAbove(d, size, pri[e := newPri], pos[e])
  {
  }

  /** After the last element took the slot of `e`, it may be out of order there. */
  lemma Replaced(d: seq<nat>, size: nat, pos: seq<nat>, pri: seq<int>, e: nat)
    requires |pri| == |pos| && Indexed(d, size, pos, NONE) && Ordered(d, size, pri)
    requires e < |pos| && pos[e] != 0
    ensures 1 <= pos[e] < size && d[pos[e]] == e && d[size - 1] < |pos|
    ensures var r := d[size - 1];
      && pos[r] != 0 && (pos[e] == size - 1 <==> e == r)
      && IndexedBut(d[pos[e] := r], size - 1, pos, r, pos[e], e)
      && (pri[e] > pri[r] ==> pos[e] < size - 1 && OrderedBelow(d[pos[e] := r], size - 1, pri, pos[e]))
      && (pri[e] <= pri[r] ==> OrderedAbove(d[pos[e] := r], size - 1, pri, pos[e]))
  {
  }

  /** The root precedes every element of the heap. */
  lemma RootPrecedes(d: seq<nat>, size: nat, pos: seq<nat>, pri: seq<int>)
    requires |pri| == |pos| && Indexed(d, size, pos, NONE) && Ordered(d, size, pri) && size > 1
    ensures d[1] < |pri| && pos[d[1]] == 1
    ensures forall x :: 0 <= x < |pos| && pos[x] != 0 ==> pri[d[1]] <= pri[x]
  {
    forall x | 0 <= x < |pos| && pos[x] != 0
      ensures pri[d[1]] <= pri[x]
    {
      RootIsMinimum(d, size, pri, pos[x]);
    }
  }

  lemma MembersAfter(before: seq<nat>, after: seq<nat>, m: nat, gone: int)
    requires SameMembers(before, after, m, gone) && m < |before| && after[m] != 0
    ensures MemberSet(after) == MemberSet(before) + {m}
  {
  }

  /** What `pqueue_remove` uses of the heap. */
  lemma RemoveFacts(d: seq<nat>, size: nat, pos: seq<nat>, pri: seq<int>, e: nat)
    requires |pri| == |pos| && Indexed(d, size, pos, NONE) && Ordered(d, size, pri)
    requires e < |pos| && pos[e] != 0
    ensures 1 <= pos[e] < size <= |d| && d[size - 1] < |pos|
    ensures e in MemberSet(pos) && d[size - 1] in MemberSet(pos)
    ensures var r, d' := d[size - 1], d[pos[e] := d[size - 1]];
      && (pos[e] == size - 1 <==> e == r)
      && IndexedBut(d', size - 1, pos, r, pos[e], e)
      && (pri[e] > pri[r] ==> pos[e] < size - 1 && OrderedBelow(d', size - 1, pri, pos[e]))
      && (pri[e] <= pri[r] ==> OrderedAbove(d', size - 1, pri, pos[e]))
  {
    Replaced(d, size, pos, pri, e);
  }

  /** What `pqueue_pop` uses of the heap whose root is `head`. */
  lemma RootFacts(d: seq<nat>, size: nat, pos: seq<nat>, pri: seq<int>, head: nat)
    requires |pri| == |pos| && Indexed(d, size, pos, NONE) && Ordered(d, size, pri) && size > 1 && d[1] == head
    ensures head < |pos| && pos[head] == 1 && d[size - 1] < |pos| && 1 < |d|
    ensures head in MemberSet(pos) && d[size - 1] in MemberSet(pos)
    ensures forall x :: x in MemberSet(pos) ==> x < |pri| && pri[head] <= pri[x]
    ensures size - 1 == 1 ==> head == d[size - 1]
    ensures IndexedBut(d[1 := d[size - 1]], size - 1, pos, d[size - 1], 1, head)
    ensures OrderedAbove(d[1 := d[size - 1]], size - 1, pri, 1)
  {
    Replaced(d, size, pos, pri, head);
    RootPrecedes(d, size, pos, pri);
  }

  // ---------- the heap in memory ----------

  class PQueue {
    const d: array<nat>
    var size: nat
    /** Priority and position of every element; these belong to the lines. */
    const pri: array<int>
    const pos: array<nat>

    ghost predicate Shape()
      reads this
    {
      && d != pos
      && pri.Length == pos.Length && d.Length == pos.Length + 1
      && 1 <= size <= d.Length
    }

    /** The heap invariant; `gone` is an element popped or removed whose `pos` is not yet reset. */
    ghost predicate OkBut(gone: int)
      reads this, d, pri, pos
    {
      && Shape()
      && Indexed(d[..], size, pos[..], gone)
      && Ordered(d[..], size, pri[..])
    }

    ghost predicate Ok()
      reads this, d, pri, pos
    {
      OkBut(NONE)
    }

    predicate InHeap(e: nat)
      requires e < pos.Length
      reads this, pos
    {
      pos[e] != 0
    }

    /** The elements of the heap. */
    ghost function Members(): (m: set<nat>)
      reads this, pos
    {
      MemberSet(pos[..])
    }

    /** `pqueue_init` over lines whose `pos` is zero. */
    constructor (n: nat)
      ensures Ok() && size == 1 && pos.Length == n
      ensures fresh(d) && fresh(pri) && fresh(pos)
      ensures forall e :: 0 <= e < n ==> pos[e] == 0 && pri[e] == 0
    {
      d := new nat[n + 1](i => 0);
      pri := new int[n](i => 0);
      pos := new nat[n](i => 0);
      size := 1;
    }

    method BubbleUp(start: nat, ghost gone: int)
      requires Shape() && 1 <= start < size
      requires IndexedBut(d[..], size, pos[..], d[start], start, gone)
      requires OrderedBelow(d[..], size, pri[..], start)
      modifies d, pos
      ensures OkBut(gone)
      ensures Members() == old(Members()) + {old(d[start])}
    {
      hide IndexedBut, OrderedBelow, SameMembers, Indexed, Ordered;
      var i: nat := start;
      var m := d[i];
      SlotsHoldElements(d[..], size, pos[..], m, i, gone);
      var movingPri := pri[m];
      var parent: nat := i / 2;
      // the heap with the moving element put into the gap, the positions, the priorities
      ghost var a: seq<nat>, p: seq<nat>, q := d[..], pos[..], pri[..];
      ghost var before := p;
      Unmoved(p, m, gone);
      while i > 1 && pri[d[parent]] > movingPri
        invariant 1 <= i < size && parent == i / 2
        invariant AgreeBut(i, a) && a[i] == m && p == pos[..]
        invariant IndexedBut(a, size, p, m, i, gone) && OrderedBelow(a, size, q, i)
        invariant SameMembers(before, p, m, gone)
        decreases i
      {
        BubbleStep(a, size, p, q, m, i, gone, before);
        d[i] := d[parent];
        pos[d[i]] := i;
        p := p[a[parent] := i];
        a := a[i := a[parent]][parent := m];
        SlotsHoldElements(a, size, p, m, parent, gone);
        i := parent;
        parent := i / 2;
      }
      BubbleStop(a, size, p, q, m, i, gone, before);
      d[i] := m;
      pos[m] := i;
      assert d[..] == a && pos[..] == p[m := i];
      MembersAfter(before, pos[..], m, gone);
    }

    /** `maxchild`: the child with the smaller priority, 0 for a leaf. `a` is the heap as it would be
        with the moving element in slot `i`. */
    method MaxChild(i: nat, ghost a: seq<nat>) returns (c: nat)
      requires Shape() && i >= 1 && i < |a| && AgreeBut(i, a)
      ensures c == 0 <==> 2 * i >= size
      ensures c != 0 ==> c < size && c / 2 == i && pri[d[c]] == pri[a[c]]
      ensures c != 0 ==> IsMaxChild(a, size, pri[..], i, c)
    {
      c := 2 * i;
      if c >= size {
        return 0;
      }
      if c + 1 < size && pri[d[c]] > pri[d[c + 1]] {
        c := c + 1;
      }
    }

    ghost predicate AgreeBut(i: nat, a: seq<nat>)
      reads this, d
    {
      && |a| == d.Length && size <= |a| && (forall k :: 0 <= k < |a| && k != i ==> d[k] == a[k])
      && forall j :: 1 <= j < size ==> a[j] < pri.Length
    }

    /** Also called with `start == size`, for an element that has just left the last slot. */
    method PercolateDown(start: nat, ghost gone: int)
      requires Shape() && 1 <= start <= size && start < d.Length
      requires d[start] < pos.Length && (start == size ==> gone == d[start])
      requires IndexedBut(d[..], size, pos[..], d[start], start, gone)
      requires OrderedAbove(d[..], size, pri[..], start)
      modifies d, pos
      ensures OkBut(gone)
      ensures Members() == old(Members()) + {old(d[start])}
    {
      hide Sinking, IndexedBut, OrderedAbove, SameMembers, Indexed, Ordered, IsMaxChild, MemberSet;
      var i: nat := start;
      var m := d[i];
      var movingPri := pri[m];
      ghost var a: seq<nat>, p: seq<nat>, q := d[..], pos[..], pri[..];
      ghost var before := p;
      StartSinking(a, size, p, q, m, i, gone);
      SlotsHoldElements(a, size, p, m, i, gone);
      var child := MaxChild(i, a);
      while child != 0 && movingPri > pri[d[child]]
        invariant 1 <= i <= size && i < d.Length && (i == size ==> start == size)
        invariant AgreeBut(i, a) && a[i] == m && p == pos[..]
        invariant child == 0 <==> 2 * i >= size
        invariant child != 0 ==> i < child < size && IsMaxChild(a, size, q, i, child)
        invariant Sinking(a, size, p, q, m, i, gone, before)
        decreases size - i
      {
        PercolateStep(a, size, p, q, m, i, child, gone, before);
        d[i] := d[child];
        pos[d[i]] := i;
        p := p[a[child] := i];
        a := a[i := a[child]][child := m];
        i := child;
        child := MaxChild(i, a);
      }
      PercolateStop(a, size, p, q, m, i, child, gone, before);
      d[i] := m;
      pos[m] := i;
      assert d[..] == a && pos[..] == p[m := i];
      MembersAfter(before, pos[..], m, gone);
    }

    /** `pqueue_insert` of an element outside the heap; its capacity check never fails. */
    method Insert(e: nat)
      requires Ok() && e < pos.Length && !InHeap(e)
      modifies this`size, d, pos
      ensures Ok() && size == old(size) + 1
      ensures Members() == old(Members()) + {e}
    {
      CapacitySuffices(d[..], size, pos[..]);
      assert pos[..][e] == 0;
      var i := size;
      size := size + 1;
      d[i] := e;
      BubbleUp(i, NONE);
    }

    /** `pqueue_change_priority` */
    method ChangePriority(newPri: int, e: nat)
      requires Ok() && e < pos.Length && InHeap(e)
      modifies d, pos, pri
      ensures Ok()
      ensures pri[..] == old(pri[..])[e := newPri]
      ensures Members() == old(Members())
    {
      hide Indexed, Ordered, IndexedBut, OrderedAbove, OrderedBelow;
      var oldPri := pri[e];
      Reprioritised(d[..], size, pos[..], pri[..], e, newPri);
      pri[e] := newPri;
      assert pri[..] == old(pri[..])[e := newPri];
      var posn := pos[e];
      if oldPri > newPri {
        BubbleUp(posn, NONE);
      } else {
        PercolateDown(posn, NONE);
      }
    }

    /** `pqueue_remove`; the removed element keeps its old `pos`. */
    method Remove(e: nat)
      requires Ok() && e < pos.Length && InHeap(e)
      modifies this`size, d, pos
      ensures OkBut(e) && size == old(size) - 1
      ensures Members() == old(Members()) && InHeap(e)
    {
      hide Indexed, Ordered, IndexedBut, OrderedAbove, OrderedBelow;
      var posn := pos[e];
      RemoveFacts(d[..], size, pos[..], pri[..], e);
      size := size - 1;
      d[posn] := d[size];
      assert d[..] == old(d[..])[posn := old(d[size - 1])];
      if pri[e] > pri[d[posn]] {
        BubbleUp(posn, e);
      } else {
        PercolateDown(posn, e);
      }
      assert e in Members();
    }

    method Peek() returns (head: int)
      requires Ok()
      ensures head == NONE <==> size == 1
      ensures head != NONE ==> 0 <= head < pos.Length && pos[head] == 1 && d[1] == head
      ensures head != NONE ==> forall x :: x in Members() ==> pri[head] <= pri[x]
    {
      if size == 1 {
        return NONE;
      }
      head := d[1];
      RootPrecedes(d[..], size, pos[..], pri[..]);
    }

    /** `pqueue_pop`: removes an element of least priority. Its `pos` stays 1 until the caller resets it. */
    method Pop() returns (head: int)
      requires Ok()
      modifies this`size, d, pos
      ensures old(size) == 1 <==> head == NONE
      ensures head == NONE ==> Ok() && unchanged(this, d, pos)
      ensures head != NONE ==> 0 <= head < pos.Length && old(pos[head]) == 1 && head == old(d[1])
      ensures head != NONE ==> OkBut(head) && size == old(size) - 1
      ensures head != NONE ==> Members() == old(Members()) && InHeap(head)
      ensures head != NONE ==> forall x :: x in old(Members()) ==> pri[head] <= pri[x]
    {
      hide Indexed, Ordered, IndexedBut, OrderedAbove;
      head := Peek();
      if head == NONE {
        return;
      }
      RootFacts(d[..], size, pos[..], pri[..], head);
      size := size - 1;
      d[1] := d[size];
      assert d[..] == old(d[..])[1 := old(d[size - 1])];
      PercolateDown(1, head);
      assert head as nat in Members();
    }

    /** Resetting the `pos` of an element that has left completes the removal. */
    method Forget(e: nat)
      requires OkBut(e) && e < pos.Length
      modifies pos
      ensures Ok()
      ensures Members() == old(Members()) - {e}
    {
      pos[e] := 0;
    }

    /** `pqueue_pop` followed by resetting `pos`, as `select_victim_line` does. */
    method Take() returns (head: nat)
      requires Ok() && size > 1
      modifies this`size, d, pos
      ensures Ok() && size == old(size) - 1
      ensures head < pos.Length && head == old(d[1]) && head in old(Members())
      ensures Members() == old(Members()) - {head}
      ensures forall x :: x in old(Members()) ==> pri[head] <= pri[x]
    {
      hide Indexed, Ordered;
      var h := Pop();
      assert h as nat in Members();
      Forget(h);
      head := h;
    }

    /** Writing the counter of a line outside the heap does not disturb the heap. */
    method SetIdlePriority(newPri: int, e: nat)
      requires Ok() && e < pos.Length && !InHeap(e)
      modifies pri
      ensures Ok()
      ensures pri[..] == old(pri[..])[e := newPri]
    {
      pri[e] := newPri;
      forall j | 1 <= j < size
        ensures d[..][j] != e
      {
        assert pos[..][d[..][j]] == j;
      }
    }
  }
}
