/** Bandwidth as credits per absolute time slot: what the credit ring of channel_model.c stands for.
    The map holds the credits granted in each slot so far; a slot that is not in it is untouched. */
module Credits {
  import opened Arith

  type Ledger = map<nat, nat>

  function Used(used: Ledger, slot: nat): nat {
    if slot in used then used[slot] else 0
  }

  /** No slot gives more than `full` credits. */
  ghost predicate Bounded(used: Ledger, full: nat) {
    forall a: nat :: Used(used, a) <= full
  }

  ghost predicate UntouchedFrom(used: Ledger, slot: nat) {
    forall a: nat :: a >= slot ==> Used(used, a) == 0
  }

  function Consumed(used: Ledger, full: nat, slot: nat, need: nat): nat
    requires Used(used, slot) <= full
  {
    Min(need, full - Used(used, slot))
  }

  function Spend(used: Ledger, slot: nat, c: nat): Ledger {
    used[slot := Used(used, slot) + c]
  }

  datatype Grant = Grant(used: Ledger, last: nat, left: nat)

  /** Greedy allocation from `slot` on: as much as each slot has, up to the slot before `end`. */
  function Allocate(used: Ledger, full: nat, slot: nat, end: nat, need: nat): (g: Grant)
    requires Bounded(used, full) && slot < end
    ensures slot <= g.last < end
    decreases end - slot
  {
    var c := Consumed(used, full, slot, need);
    var next := Spend(used, slot, c);
    SpendBounded(used, full, slot, c);
    if need == c || slot + 1 == end then Grant(next, slot, need - c)
    else Allocate(next, full, slot + 1, end, need - c)
  }

  lemma SpendBounded(used: Ledger, full: nat, slot: nat, c: nat)
    requires Bounded(used, full) && Used(used, slot) + c <= full
    ensures Bounded(Spend(used, slot, c), full)
  {
    forall a: nat
      ensures Used(Spend(used, slot, c), a) <= full
    {
      assert Used(used, a) <= full;
    }
  }

  // ---------- totals ----------

  /** The credits granted in the slots [lo, hi). */
  function Granted(used: Ledger, lo: nat, hi: nat): nat {
    if hi <= lo then 0 else Granted(used, lo, hi - 1) + Used(used, hi - 1)
  }

  /** The credits still available in the slots [lo, hi). */
  function Available(used: Ledger, full: nat, lo: nat, hi: nat): nat
    requires Bounded(used, full)
  {
    if hi <= lo then 0
    else
      assert Used(used, hi - 1) <= full;
      Available(used, full, lo, hi - 1) + (full - Used(used, hi - 1))
  }

  lemma {:induction false} SpendElsewhere(used: Ledger, full: nat, slot: nat, c: nat, lo: nat, hi: nat)
    requires Bounded(used, full) && Bounded(Spend(used, slot, c), full) && (slot < lo || hi <= slot)
    ensures Available(Spend(used, slot, c), full, lo, hi) == Available(used, full, lo, hi)
  {
    if lo < hi {
      SpendElsewhere(used, full, slot, c, lo, hi - 1);
    }
  }

  lemma {:induction false} AvailableFront(used: Ledger, full: nat, lo: nat, hi: nat)
    requires Bounded(used, full) && lo < hi
    ensures Used(used, lo) <= full
    ensures Available(used, full, lo, hi) == full - Used(used, lo) + Available(used, full, lo + 1, hi)
  {
    if lo + 1 < hi {
      AvailableFront(used, full, lo, hi - 1);
    }
  }

  lemma OneSlot(used: Ledger, full: nat, slot: nat)
    requires Bounded(used, full)
    ensures Used(used, slot) <= full && Available(used, full, slot, slot + 1) == full - Used(used, slot)
  {
    AvailableFront(used, full, slot, slot + 1);
  }

  lemma AllocateStep(used: Ledger, full: nat, slot: nat, end: nat, need: nat)
    requires Bounded(used, full) && slot < end
    ensures Used(used, slot) <= full
    ensures var c := Consumed(used, full, slot, need); var next := Spend(used, slot, c);
      && Bounded(next, full) && Used(next, slot) == Used(used, slot) + c
      && Allocate(used, full, slot, end, need) ==
         if need == c || slot + 1 == end then Grant(next, slot, need - c) else Allocate(next, full, slot + 1, end, need - c)
  {
    assert Used(used, slot) <= full;
    var c := Consumed(used, full, slot, need);
    SpendBounded(used, full, slot, c);
    hide Bounded;
  }

  /** A request gets all it needs or everything that is left up to the end. */
  lemma {:induction false} AllocateTakes(used: Ledger, full: nat, slot: nat, end: nat, need: nat)
    requires Bounded(used, full) && slot < end
    ensures need - Allocate(used, full, slot, end, need).left == Min(need, Available(used, full, slot, end))
    decreases end - slot
  {
    hide Bounded, Allocate, Spend, Used;
    OneSlot(used, full, slot);
    AllocateStep(used, full, slot, end, need);
    var c := Consumed(used, full, slot, need);
    AvailableFront(used, full, slot, end);
    if need != c && slot + 1 != end {
      AllocateTakes(Spend(used, slot, c), full, slot + 1, end, need - c);
      SpendElsewhere(used, full, slot, c, slot + 1, end);
      hide Available;
    } else if slot + 1 == end {
      assert Available(used, full, slot + 1, end) == 0;
    }
  }

  /** Spending in the first slot takes from what is available from there on. */
  lemma SpendFirst(used: Ledger, full: nat, slot: nat, c: nat, b: nat)
    requires Bounded(used, full) && Bounded(Spend(used, slot, c), full) && slot < b
    requires c == full - Used(used, slot)
    ensures Available(used, full, slot, b) == c + Available(Spend(used, slot, c), full, slot + 1, b)
  {
    AvailableFront(used, full, slot, b);
    SpendElsewhere(used, full, slot, c, slot + 1, b);
  }

  /** It finishes in the first slot up to which enough is available, or at the end. */
  lemma {:induction false} AllocateFinishes(used: Ledger, full: nat, slot: nat, end: nat, need: nat, b: nat)
    requires Bounded(used, full) && slot < end
    ensures var f := Allocate(used, full, slot, end, need).last;
      && (slot < b <= f ==> Available(used, full, slot, b) < need)
      && (Available(used, full, slot, f + 1) >= need || f + 1 == end)
    decreases end - slot
  {
    hide Bounded, Available, Allocate, Spend, Used;
    OneSlot(used, full, slot);
    AllocateStep(used, full, slot, end, need);
    var c, f := Consumed(used, full, slot, need), Allocate(used, full, slot, end, need).last;
    if need != c && slot + 1 != end {
      AllocateFinishes(Spend(used, slot, c), full, slot + 1, end, need - c, b);
      SpendFirst(used, full, slot, c, f + 1);
      if slot < b {
        SpendFirst(used, full, slot, c, b);
      }
    }
  }

  /** Only the slots from the first to the last are charged; all but the last are drained. */
  lemma {:induction false} AllocateCharges(used: Ledger, full: nat, slot: nat, end: nat, need: nat, a: nat)
    requires Bounded(used, full) && slot < end
    ensures var g := Allocate(used, full, slot, end, need);
      && Used(used, a) <= Used(g.used, a) <= full
      && (a < slot || a > g.last ==> Used(g.used, a) == Used(used, a))
      && (slot <= a < g.last ==> Used(g.used, a) == full)
    decreases end - slot
  {
    assert Used(used, a) <= full;
    var c := Consumed(used, full, slot, need);
    var next := Spend(used, slot, c);
    SpendBounded(used, full, slot, c);
    if need != c && slot + 1 != end {
      AllocateCharges(next, full, slot + 1, end, need - c, a);
    }
  }

  /** The last slot keeps what is left over of the credits up to it, if anything. */
  lemma {:induction false} AllocateLast(used: Ledger, full: nat, slot: nat, end: nat, need: nat)
    requires Bounded(used, full) && slot < end
    ensures var g := Allocate(used, full, slot, end, need);
      Used(g.used, g.last) == Remains(full, Available(used, full, slot, g.last + 1), need)
    decreases end - slot
  {
    hide Bounded, Available, Allocate, Spend, Used;
    OneSlot(used, full, slot);
    AllocateStep(used, full, slot, end, need);
    var c := Consumed(used, full, slot, need);
    if need != c && slot + 1 != end {
      AllocateLast(Spend(used, slot, c), full, slot + 1, end, need - c);
      SpendFirst(used, full, slot, c, Allocate(used, full, slot, end, need).last + 1);
    }
  }

  /** The charge of a last slot that with the slots before it has `supply` credits. */
  function Remains(full: nat, supply: nat, need: nat): int {
    if supply >= need then full - (supply - need) else full
  }

  lemma AllocateBounded(used: Ledger, full: nat, slot: nat, end: nat, need: nat)
    requires Bounded(used, full) && slot < end
    ensures Bounded(Allocate(used, full, slot, end, need).used, full)
  {
    forall a: nat
      ensures Used(Allocate(used, full, slot, end, need).used, a) <= full
    {
      AllocateCharges(used, full, slot, end, need, a);
    }
  }

  /** Slots beyond the last one charged stay untouched. */
  lemma AllocateUntouched(used: Ledger, full: nat, slot: nat, end: nat, need: nat, from: nat)
    requires Bounded(used, full) && slot < end
    requires UntouchedFrom(used, from)
    requires Allocate(used, full, slot, end, need).last < from
    ensures UntouchedFrom(Allocate(used, full, slot, end, need).used, from)
  {
    forall a: nat | a >= from
      ensures Used(Allocate(used, full, slot, end, need).used, a) == 0
    {
      AllocateCharges(used, full, slot, end, need, a);
    }
  }

  lemma {:induction false} GrantedSpend(used: Ledger, slot: nat, c: nat, lo: nat, hi: nat)
    ensures Granted(Spend(used, slot, c), lo, hi) == Granted(used, lo, hi) + (if lo <= slot < hi then c else 0)
  {
    if lo < hi {
      GrantedSpend(used, slot, c, lo, hi - 1);
    }
  }

  /** What the request got is what the slots up to any later horizon were charged. */
  lemma {:induction false} AllocateConserves(used: Ledger, full: nat, slot: nat, end: nat, need: nat, horizon: nat)
    requires Bounded(used, full) && slot < end <= horizon
    ensures var g := Allocate(used, full, slot, end, need);
      && g.left <= need
      && Granted(g.used, 0, horizon) == Granted(used, 0, horizon) + need - g.left
    decreases end - slot
  {
    var c := Consumed(used, full, slot, need);
    var next := Spend(used, slot, c);
    SpendBounded(used, full, slot, c);
    GrantedSpend(used, slot, c, 0, horizon);
    if need != c && slot + 1 != end {
      AllocateConserves(next, full, slot + 1, end, need - c, horizon);
    }
  }

  // ---------- the clock ----------

  const TWO32: nat := 0x1_0000_0000

  /** What a `uint32_t` keeps of a value. */
  function Trunc32(x: nat): (r: nat)
    ensures r <= x && r < TWO32 && (x < TWO32 ==> r == x)
  {
    x % TWO32
  }

  /** By how much the 32-bit offset falls short of the slots that have passed. */
  function Lost(gap: nat): nat {
    gap - Trunc32(gap)
  }

  function Earlier(used: Ledger, slot: nat, lost: nat): nat {
    if slot < lost then 0 else Used(used, slot - lost)
  }

  /** What was granted in the `ring` slots from `from` on seems to have been granted `lost` slots later. */
  function Shifted(used: Ledger, from: nat, lost: nat, ring: nat): Ledger {
    used + (map a | from + lost <= a < from + lost + ring :: Earlier(used, a, lost))
  }

  lemma ShiftedUsed(used: Ledger, from: nat, lost: nat, ring: nat, a: nat)
    requires UntouchedFrom(used, from + lost) && UntouchedFrom(used, from + ring)
    ensures Used(Shifted(used, from, lost, ring), a)
            == if a >= from + lost then Used(used, a - lost) else Used(used, a)
  {
    assert a >= from + lost ==> Used(used, a) == 0;
    assert a >= from + lost + ring ==> Used(used, a - lost) == 0;
  }

  lemma ShiftedBounded(used: Ledger, full: nat, from: nat, lost: nat, ring: nat)
    requires Bounded(used, full)
    ensures Bounded(Shifted(used, from, lost, ring), full)
  {
    forall a: nat
      ensures Used(Shifted(used, from, lost, ring), a) <= full
    {
      assert Used(used, a) <= full;
      if a >= lost {
        assert Used(used, a - lost) <= full;
      }
    }
  }

  /** The ledger that a ring of `ring` slots starting at `base` stands for once `gap` slots have passed. The head
      moves by the wrapped offset only, so what it does not pass over reappears `Lost(gap)` slots later. */
  function Aged(used: Ledger, base: nat, gap: nat, ring: nat): Ledger {
    if gap < TWO32 then used else Shifted(used, base + Trunc32(gap), Lost(gap), ring)
  }

  /** A wrapped offset changes the slots from the new base on and no others. */
  lemma AgedUsed(used: Ledger, base: nat, gap: nat, ring: nat, a: nat)
    requires UntouchedFrom(used, base + ring) && ring < TWO32
    ensures Used(Aged(used, base, gap, ring), a)
            == if gap >= TWO32 && a >= base + gap then Used(used, a - Lost(gap)) else Used(used, a)
  {
    hide Shifted, Trunc32;
    if gap >= TWO32 {
      ShiftedUsed(used, base + Trunc32(gap), Lost(gap), ring, a);
    }
  }

  lemma AgedBounded(used: Ledger, full: nat, base: nat, gap: nat, ring: nat)
    requires Bounded(used, full)
    ensures Bounded(Aged(used, base, gap, ring), full)
  {
    hide Shifted, Trunc32, Bounded;
    ShiftedBounded(used, full, base + Trunc32(gap), Lost(gap), ring);
  }

  lemma AgedUntouched(used: Ledger, base: nat, gap: nat, ring: nat, from: nat)
    requires UntouchedFrom(used, base + from) && from <= ring < TWO32
    ensures UntouchedFrom(Aged(used, base, gap, ring), base + gap + from)
  {
    hide Aged, Trunc32;
    forall a: nat | a >= base + gap + from
      ensures Used(Aged(used, base, gap, ring), a) == 0
    {
      AgedUsed(used, base, gap, ring, a);
    }
  }

  lemma AgedGrows(used: Ledger, base: nat, gap: nat, ring: nat, a: nat)
    requires UntouchedFrom(used, base + ring) && ring < TWO32
    ensures Used(used, a) <= Used(Aged(used, base, gap, ring), a)
  {
    hide Aged, Trunc32;
    AgedUsed(used, base, gap, ring, a);
  }

  // ---------- whole runs ----------

  /** What the ring stands for, and the slot it starts at. */
  datatype Ring = Ring(used: Ledger, base: nat)

  /** A request `gap` slots after the last one for `need` credits from slot `start` on. */
  datatype Demand = Demand(gap: nat, start: nat, need: nat)

  /** All requests look `ring` slots ahead; one beyond that horizon is not charged. */
  function Serve(r: Ring, full: nat, ring: nat, d: Demand): (t: Ring)
    requires Bounded(r.used, full)
    ensures Bounded(t.used, full)
  {
    var used, base := Aged(r.used, r.base, d.gap, ring), r.base + d.gap;
    AgedBounded(r.used, full, r.base, d.gap, ring);
    if d.start < base + ring then
      AllocateBounded(used, full, d.start, base + ring, d.need);
      Ring(Allocate(used, full, d.start, base + ring, d.need).used, base)
    else Ring(used, base)
  }

  function ServeAll(full: nat, ring: nat, demands: seq<Demand>): (t: Ring)
    ensures Bounded(t.used, full)
  {
    if demands == [] then Ring(map[], 0)
    else Serve(ServeAll(full, ring, demands[..|demands| - 1]), full, ring, demands[|demands| - 1])
  }

  lemma {:induction false} GrantedBound(used: Ledger, full: nat, lo: nat, k: nat)
    requires Bounded(used, full)
    ensures Granted(used, lo, lo + k) <= k * full
  {
    if k > 0 {
      GrantedBound(used, full, lo, k - 1);
      assert Used(used, lo + k - 1) <= full;
      assert (k - 1) * full + full == k * full;
    }
  }

  /** Over any run the credits granted in any `k` consecutive slots never exceed `k * full`. */
  lemma BandwidthBound(full: nat, ring: nat, demands: seq<Demand>, lo: nat, k: nat)
    ensures Granted(ServeAll(full, ring, demands).used, lo, lo + k) <= k * full
  {
    GrantedBound(ServeAll(full, ring, demands).used, full, lo, k);
  }

  lemma UntouchedEmpty(from: nat)
    ensures UntouchedFrom(map[], from)
  {
  }

  /** Nothing is ever charged beyond the horizon. */
  lemma {:induction false} RunUntouched(full: nat, ring: nat, demands: seq<Demand>)
    requires ring < TWO32
    ensures var r := ServeAll(full, ring, demands); UntouchedFrom(r.used, r.base + ring)
  {
    hide Aged, Allocate, UntouchedFrom, Bounded;
    UntouchedEmpty(ring);
    if demands != [] {
      var d := demands[|demands| - 1];
      var r := ServeAll(full, ring, demands[..|demands| - 1]);
      RunUntouched(full, ring, demands[..|demands| - 1]);
      AgedUntouched(r.used, r.base, d.gap, ring, ring);
      AgedBounded(r.used, full, r.base, d.gap, ring);
      var used, end := Aged(r.used, r.base, d.gap, ring), r.base + d.gap + ring;
      if d.start < end {
        AllocateUntouched(used, full, d.start, end, d.need, end);
      }
    }
  }

  /** Once charged, a slot stays charged: no further request gives credits back, even after an idle gap that
      wraps the offset. */
  lemma ServeMonotone(full: nat, ring: nat, demands: seq<Demand>, d: Demand, a: nat)
    requires ring < TWO32
    ensures var r := ServeAll(full, ring, demands); Used(r.used, a) <= Used(Serve(r, full, ring, d).used, a)
  {
    hide Aged, Allocate, Bounded;
    var r := ServeAll(full, ring, demands);
    RunUntouched(full, ring, demands);
    AgedBounded(r.used, full, r.base, d.gap, ring);
    var used, end := Aged(r.used, r.base, d.gap, ring), r.base + d.gap + ring;
    AgedGrows(r.used, r.base, d.gap, ring, a);
    if d.start < end {
      AllocateCharges(used, full, d.start, end, d.need, a);
    }
  }

  /** After 2^32 idle slots a grant of slot 0 seems to have been made in slot 2^32, which no request has asked
      for. */
  lemma GrantReappears(full: nat, ring: nat, need: nat)
    requires 0 < need <= full && 0 < ring < TWO32
    ensures var r := ServeAll(full, ring, [Demand(0, 0, need), Demand(TWO32, TWO32 + ring, 0)]);
      r.base == TWO32 && Used(r.used, TWO32) == need
  {
    var first, idle := Demand(0, 0, need), Demand(TWO32, TWO32 + ring, 0);
    assert [first, idle][..1] == [first] && [first][..0] == [];
    var r := ServeAll(full, ring, [first]);
    assert ServeAll(full, ring, []) == Ring(map[], 0);
    assert r == Ring(map[0 := need], 0);
    hide Allocate;
    AgedUsed(r.used, 0, TWO32, ring, TWO32);
  }
}
