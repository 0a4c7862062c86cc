/** The credit ring of channel_model.c: a circular array that stands for the ledger of all time slots. */
module ChannelModel {
  import opened Arith
  import opened Credits

  const NR_CREDIT_ENTRIES: nat := 1024 * 96
  const UNIT_TIME_INTERVAL: nat := 4000
  const UNIT_XFER_SIZE: nat := 128
  /** The slot a request starts in; its distance from the current slot is kept in 32 bits. */
  function StartSlot(now: nat, requestTime: nat): nat
    requires now <= requestTime
  {
    now / UNIT_TIME_INTERVAL + Trunc32(requestTime / UNIT_TIME_INTERVAL - now / UNIT_TIME_INTERVAL)
  }

  /** Requests in the past and requests beyond the ring are not charged. */
  predicate Charged(now: nat, requestTime: nat) {
    now <= requestTime && StartSlot(now, requestTime) < now / UNIT_TIME_INTERVAL + NR_CREDIT_ENTRIES
  }

  /** Without a wrap of the offset a request starts in the slot of its own time. */
  lemma StartsAtItsTime(now: nat, requestTime: nat)
    requires now <= requestTime
    ensures StartSlot(now, requestTime) == requestTime / UNIT_TIME_INTERVAL
            <==> requestTime / UNIT_TIME_INTERVAL - now / UNIT_TIME_INTERVAL < TWO32
  {
  }

  // ---------- positions in the ring ----------

  function RingPos(head: nat, off: nat): nat {
    if head + off < NR_CREDIT_ENTRIES then head + off else head + off - NR_CREDIT_ENTRIES
  }

  function RingOff(head: nat, pos: nat): nat
    requires head < NR_CREDIT_ENTRIES
  {
    if pos >= head then pos - head else NR_CREDIT_ENTRIES - head + pos
  }

  /** The entry `off` slots after the head holds the credits left in slot `base + off`. */
  ghost predicate Entry(avail: seq<nat>, head: nat, base: nat, full: nat, used: Ledger, off: nat)
    requires |avail| == NR_CREDIT_ENTRIES && head < NR_CREDIT_ENTRIES && off < NR_CREDIT_ENTRIES
  {
    avail[RingPos(head, off)] + Used(used, base + off) == full
  }

  ghost predicate Tracks(avail: seq<nat>, head: nat, base: nat, full: nat, used: Ledger) {
    && |avail| == NR_CREDIT_ENTRIES && head < NR_CREDIT_ENTRIES
    && (forall off: nat :: off < NR_CREDIT_ENTRIES ==> Entry(avail, head, base, full, used, off))
  }

  /** The ring stands for the ledger from slot `base` on, and is untouched beyond the valid length. */
  ghost predicate RingOk(avail: seq<nat>, head: nat, base: nat, validLen: nat, full: nat, used: Ledger) {
    && |avail| == NR_CREDIT_ENTRIES && head < NR_CREDIT_ENTRIES && validLen <= NR_CREDIT_ENTRIES
    && Bounded(used, full) && UntouchedFrom(used, base + validLen)
    && Tracks(avail, head, base, full, used)
  }

  /** Entries beyond the valid length are full. */
  lemma BeyondValidIsFull(avail: seq<nat>, head: nat, base: nat, validLen: nat, full: nat, used: Ledger, pos: nat)
    requires RingOk(avail, head, base, validLen, full, used)
    requires pos < NR_CREDIT_ENTRIES && validLen <= RingOff(head, pos)
    ensures avail[pos] == full
  {
    assert Entry(avail, head, base, full, used, RingOff(head, pos));
  }

  // ---------- moving the head ----------

  /** The ring after the first `n` entries from the head have been refilled. */
  function Refilled(avail: seq<nat>, head: nat, n: nat, full: nat): (r: seq<nat>)
    requires |avail| == NR_CREDIT_ENTRIES && head < NR_CREDIT_ENTRIES
    ensures |r| == NR_CREDIT_ENTRIES
  {
    seq(NR_CREDIT_ENTRIES, i requires 0 <= i < NR_CREDIT_ENTRIES => if RingOff(head, i) < n then full else avail[i])
  }

  /** How far the head moves when `gap` slots have passed. */
  function HeadMove(gap: nat, validLen: nat): nat {
    Min(Trunc32(gap), validLen)
  }

  lemma AdvanceEntry(avail: seq<nat>, head: nat, base: nat, validLen: nat, full: nat, used: Ledger, gap: nat, n: nat, off: nat)
    requires RingOk(avail, head, base, validLen, full, used) && off < NR_CREDIT_ENTRIES
    requires n <= validLen && (n == gap || n == validLen <= gap)
    ensures Entry(Refilled(avail, head, n, full), RingPos(head, n), base + gap, full, used, off)
  {
    if off + n < NR_CREDIT_ENTRIES {
      assert Entry(avail, head, base, full, used, off + n);
      assert n < gap ==> Used(used, base + n + off) == 0 && Used(used, base + gap + off) == 0;
    } else {
      assert Used(used, base + gap + off) == 0;
    }
  }

  lemma AdvanceNear(avail: seq<nat>, head: nat, base: nat, validLen: nat, full: nat, used: Ledger, gap: nat)
    requires RingOk(avail, head, base, validLen, full, used) && gap < TWO32
    ensures var n := HeadMove(gap, validLen);
      RingOk(Refilled(avail, head, n, full), (head + n) % NR_CREDIT_ENTRIES, base + gap, validLen - n, full, used)
  {
    var n := HeadMove(gap, validLen);
    var r, h, later := Refilled(avail, head, n, full), (head + n) % NR_CREDIT_ENTRIES, base + gap;
    assert n == gap || n == validLen <= gap;
    assert UntouchedFrom(used, later + validLen - n);
    assert h == RingPos(head, n);
    forall off: nat | off < NR_CREDIT_ENTRIES
      ensures Entry(r, h, later, full, used, off)
    {
      AdvanceEntry(avail, head, base, validLen, full, used, gap, n, off);
    }
    hide Entry, Refilled, RingPos, HeadMove;
  }

  /** The same ring `gap` instead of `Trunc32(gap)` slots later stands for the aged ledger. */
  lemma AdvanceFar(avail: seq<nat>, head: nat, base: nat, validLen: nat, full: nat, used: Ledger, gap: nat)
    requires RingOk(avail, head, base + Trunc32(gap), validLen, full, used) && gap >= TWO32
    requires UntouchedFrom(used, base + NR_CREDIT_ENTRIES)
    ensures RingOk(avail, head, base + gap, validLen, full, Aged(used, base, gap, NR_CREDIT_ENTRIES))
  {
    hide Trunc32, Aged, RingPos;
    var u, w := Aged(used, base, gap, NR_CREDIT_ENTRIES), Trunc32(gap);
    AgedBounded(used, full, base, gap, NR_CREDIT_ENTRIES);
    forall a: nat | a >= base + gap + validLen
      ensures Used(u, a) == 0
    {
      AgedUsed(used, base, gap, NR_CREDIT_ENTRIES, a);
    }
    var later := base + gap;
    forall off: nat | off < NR_CREDIT_ENTRIES
      ensures Entry(avail, head, later, full, u, off)
    {
      assert Entry(avail, head, base + w, full, used, off);
      AgedUsed(used, base, gap, NR_CREDIT_ENTRIES, later + off);
    }
  }

  lemma RingEnd(avail: seq<nat>, head: nat, base: nat, validLen: nat, full: nat, used: Ledger)
    requires RingOk(avail, head, base, validLen, full, used)
    ensures UntouchedFrom(used, base + NR_CREDIT_ENTRIES)
    ensures |avail| == NR_CREDIT_ENTRIES && head < NR_CREDIT_ENTRIES && validLen <= NR_CREDIT_ENTRIES
  {
  }

  /** Moving the head forgets only slots in the past, as far as the 32-bit offset goes. */
  lemma AdvanceRefines(avail: seq<nat>, head: nat, base: nat, validLen: nat, full: nat, used: Ledger, gap: nat)
    requires RingOk(avail, head, base, validLen, full, used)
    ensures var n := HeadMove(gap, validLen);
      RingOk(Refilled(avail, head, n, full), (head + n) % NR_CREDIT_ENTRIES, base + gap, validLen - n, full,
             Aged(used, base, gap, NR_CREDIT_ENTRIES))
  {
    hide RingOk, Refilled, Shifted;
    var n, w := HeadMove(gap, validLen), Trunc32(gap);
    RingEnd(avail, head, base, validLen, full, used);
    hide Trunc32;
    AdvanceNear(avail, head, base, validLen, full, used, w);
    if gap >= TWO32 {
      AdvanceFar(Refilled(avail, head, n, full), (head + n) % NR_CREDIT_ENTRIES, base, validLen - n, full, used, gap);
    }
  }

  /** The ring still stands for what was granted if and only if the idle gap fits the 32-bit offset or nothing
      has been granted from the wrapped offset on. */
  lemma AdvanceExact(avail: seq<nat>, head: nat, base: nat, validLen: nat, full: nat, used: Ledger, gap: nat)
    requires RingOk(avail, head, base, validLen, full, used)
    ensures var n := HeadMove(gap, validLen);
      RingOk(Refilled(avail, head, n, full), (head + n) % NR_CREDIT_ENTRIES, base + gap, validLen - n, full, used)
      <==> gap < TWO32 || UntouchedFrom(used, base + Trunc32(gap))
  {
    var n, w := HeadMove(gap, validLen), Trunc32(gap);
    var r, h, v := Refilled(avail, head, n, full), (head + n) % NR_CREDIT_ENTRIES, validLen - n;
    assert HeadMove(w, validLen) == n;
    AdvanceNear(avail, head, base, validLen, full, used, w);
    hide Refilled, RingPos, Trunc32, HeadMove;
    if gap >= TWO32 {
      var later := base + gap;
      forall off: nat | off < NR_CREDIT_ENTRIES
        ensures Entry(r, h, later, full, used, off) <==> Used(used, base + w + off) == 0
      {
        assert Entry(r, h, base + w, full, used, off);
        assert Used(used, later + off) == 0;
      }
      ExactFar(r, h, base, validLen, v, full, used, gap, later);
    }
  }

  lemma ExactFar(r: seq<nat>, h: nat, base: nat, validLen: nat, v: nat, full: nat, used: Ledger, gap: nat, later: nat)
    requires RingOk(r, h, base + Trunc32(gap), v, full, used) && gap >= TWO32 && later == base + gap
    requires UntouchedFrom(used, base + validLen) && validLen <= NR_CREDIT_ENTRIES
    requires forall off: nat :: off < NR_CREDIT_ENTRIES ==>
      (Entry(r, h, later, full, used, off) <==> Used(used, base + Trunc32(gap) + off) == 0)
    ensures RingOk(r, h, later, v, full, used) <==> UntouchedFrom(used, base + Trunc32(gap))
  {
    hide Entry, Trunc32;
    var w := Trunc32(gap);
    if RingOk(r, h, later, v, full, used) {
      forall a: nat | a >= base + w
        ensures Used(used, a) == 0
      {
        if a < base + w + NR_CREDIT_ENTRIES {
          var off: nat := a - (base + w);
          assert Entry(r, h, later, full, used, off);
        }
      }
    }
  }

  /** A ring with one credit per slot and the first slot charged: 2^32 slots of idling do not move the
      head, so the slot the clock has reached looks charged although nothing was ever granted in it. */
  lemma IdleGapBreaks()
    ensures var avail, used := seq(NR_CREDIT_ENTRIES, i => if i == 0 then 0 else 1), map[0 := 1];
      && RingOk(avail, 0, 0, 1, 1, used)
      && HeadMove(TWO32, 1) == 0
      && !RingOk(Refilled(avail, 0, 0, 1), 0, TWO32, 1, 1, used)
  {
    var avail: seq<nat>, used := seq(NR_CREDIT_ENTRIES, i => if i == 0 then 0 else 1), map[0 := 1];
    forall off: nat | off < NR_CREDIT_ENTRIES
      ensures Entry(avail, 0, 0, 1, used, off)
    {
    }
    assert !Entry(Refilled(avail, 0, 0, 1), 0, TWO32, 1, used, 0);
  }

  // ---------- charging ----------

  /** Charging one entry charges its slot. */
  lemma ChargeRefines(avail: seq<nat>, head: nat, base: nat, full: nat, used: Ledger, off: nat, c: nat)
    requires Tracks(avail, head, base, full, used) && off < NR_CREDIT_ENTRIES && c <= avail[RingPos(head, off)]
    ensures Tracks(avail[RingPos(head, off) := avail[RingPos(head, off)] - c], head, base, full,
                   Spend(used, base + off, c))
  {
    var a, u := avail[RingPos(head, off) := avail[RingPos(head, off)] - c], Spend(used, base + off, c);
    forall o: nat | o < NR_CREDIT_ENTRIES
      ensures Entry(a, head, base, full, u, o)
    {
      assert Entry(avail, head, base, full, used, o);
    }
  }

  lemma RingNext(head: nat, off: nat)
    requires head < NR_CREDIT_ENTRIES && off < NR_CREDIT_ENTRIES
    ensures var next := (RingPos(head, off) + 1) % NR_CREDIT_ENTRIES;
      && (next == head <==> off + 1 == NR_CREDIT_ENTRIES)
      && (off + 1 < NR_CREDIT_ENTRIES ==> next == RingPos(head, off + 1))
  {
  }

  /** One turn of the charging loop is one step of the allocation. */
  lemma ChargeStep(avail: seq<nat>, head: nat, base: nat, full: nat, used: Ledger, slot: nat, need: nat, pos: nat)
    requires Tracks(avail, head, base, full, used) && Bounded(used, full)
    requires base <= slot < base + NR_CREDIT_ENTRIES && pos == RingPos(head, slot - base)
    ensures var c := Min(need, avail[pos]);
      var a, u, end := avail[pos := avail[pos] - c], Spend(used, slot, c), base + NR_CREDIT_ENTRIES;
      && Tracks(a, head, base, full, u) && Bounded(u, full)
      && ((pos + 1) % NR_CREDIT_ENTRIES == head <==> slot + 1 == end)
      && (slot + 1 < end ==> (pos + 1) % NR_CREDIT_ENTRIES == RingPos(head, slot - base + 1))
      && Allocate(used, full, slot, end, need) ==
         if need == c || slot + 1 == end then Grant(u, slot, need - c) else Allocate(u, full, slot + 1, end, need - c)
  {
    assert Entry(avail, head, base, full, used, slot - base);
    RingNext(head, slot - base);
    var c := Min(need, avail[pos]);
    assert c == Consumed(used, full, slot, need);
    hide Entry, RingPos;
    ChargeRefines(avail, head, base, full, used, slot - base, c);
    SpendBounded(used, full, slot, c);
  }

  lemma InRing(avail: seq<nat>, head: nat, base: nat, full: nat, used: Ledger, off: nat)
    requires Tracks(avail, head, base, full, used) && off < NR_CREDIT_ENTRIES
    ensures |avail| == NR_CREDIT_ENTRIES && RingPos(head, off) < |avail|
  {
  }

  // ---------- a request as a function ----------

  /** A channel as its users see it: the ring is only the ledger. */
  datatype Chan = Chan(maxCredits: nat, commandCredits: nat, xferLat: nat, curTime: nat, used: Ledger)

  /** What a full entry holds: `credit_t` has 8 bits. */
  function Full(c: Chan): nat {
    c.maxCredits % 256
  }

  function Base(c: Chan): nat {
    c.curTime / UNIT_TIME_INTERVAL
  }

  ghost predicate ChanOk(c: Chan) {
    c.maxCredits > 0 && Bounded(c.used, Full(c))
  }

  function Units(length: nat): nat {
    Trunc32(DivRoundUp(length, UNIT_XFER_SIZE))
  }

  /** The credits a transfer of `length` bytes needs. */
  function Need(c: Chan, length: nat): nat {
    Trunc32(Units(length) + c.commandCredits)
  }

  /** The ledger once the head has moved to the slot of the clock. */
  function Moved(c: Chan, now: nat): Ledger
    requires c.curTime <= now
  {
    Aged(c.used, Base(c), now / UNIT_TIME_INTERVAL - Base(c), NR_CREDIT_ENTRIES)
  }

  lemma MovedOk(c: Chan, now: nat)
    requires ChanOk(c) && c.curTime <= now
    ensures Bounded(Moved(c, now), Full(c))
  {
    AgedBounded(c.used, Full(c), Base(c), now / UNIT_TIME_INTERVAL - Base(c), NR_CREDIT_ENTRIES);
    hide Bounded, Aged;
  }

  /** The allocation that a charged request makes at clock time `now`. */
  function Grants(c: Chan, now: nat, requestTime: nat, length: nat): Grant
    requires ChanOk(c) && c.curTime <= now && Charged(now, requestTime)
  {
    MovedOk(c, now);
    hide Bounded, Aged, ChanOk;
    Allocate(Moved(c, now), Full(c), StartSlot(now, requestTime), now / UNIT_TIME_INTERVAL + NR_CREDIT_ENTRIES,
             Need(c, length))
  }

  /** `chmodel_request` at clock time `now`: the channel afterwards. */
  function After(c: Chan, now: nat, requestTime: nat, length: nat): Chan
    requires ChanOk(c) && c.curTime <= now
  {
    c.(curTime := now,
       used := if Charged(now, requestTime) then Grants(c, now, requestTime, length).used else Moved(c, now))
  }

  /** The time it returns: one slot more for each slot that the allocation takes beyond those the credits need. */
  function EndTime(c: Chan, now: nat, requestTime: nat, length: nat): (t: nat)
    requires ChanOk(c) && c.curTime <= now
    ensures t >= requestTime
  {
    if Charged(now, requestTime) then
      var delay, grace := Grants(c, now, requestTime, length).last - StartSlot(now, requestTime), Div(Need(c, length), c.maxCredits);
      requestTime + Trunc32(c.xferLat * Units(length)) + (if delay > grace then (delay - grace) * UNIT_TIME_INTERVAL else 0)
    else requestTime
  }

  lemma Uncharged(c: Chan, now: nat, requestTime: nat, length: nat)
    requires ChanOk(c) && c.curTime <= now && !Charged(now, requestTime)
    ensures After(c, now, requestTime, length) == c.(curTime := now, used := Moved(c, now))
    ensures EndTime(c, now, requestTime, length) == requestTime
  {
  }

  lemma ChargedEnd(c: Chan, now: nat, requestTime: nat, length: nat, g: Grant, t: nat)
    requires ChanOk(c) && c.curTime <= now && Charged(now, requestTime) && g == Grants(c, now, requestTime, length)
    requires var delay, grace := g.last - StartSlot(now, requestTime), Div(Need(c, length), c.maxCredits);
      t == requestTime + Trunc32(c.xferLat * Units(length)) + (if delay > grace then delay - grace else 0) * UNIT_TIME_INTERVAL
    ensures After(c, now, requestTime, length) == c.(curTime := now, used := g.used)
    ensures EndTime(c, now, requestTime, length) == t
  {
    hide Trunc32, Grants;
  }

  /** The channel keeps its bound and is at the clock time. */
  lemma AfterOk(c: Chan, now: nat, requestTime: nat, length: nat)
    requires ChanOk(c) && c.curTime <= now
    ensures ChanOk(After(c, now, requestTime, length)) && After(c, now, requestTime, length).curTime == now
  {
    MovedOk(c, now);
    if Charged(now, requestTime) {
      AllocateBounded(Moved(c, now), Full(c), StartSlot(now, requestTime),
                      now / UNIT_TIME_INTERVAL + NR_CREDIT_ENTRIES, Need(c, length));
    }
    hide Bounded, Moved;
  }

  // ---------- a request in numbers ----------

  /** The slots up to `last` and no fewer make up `need`, or all slots up to `end` are too few. */
  ghost predicate EnoughIn(used: Ledger, full: nat, first: nat, end: nat, need: nat, last: nat) {
    && Bounded(used, full) && first <= last < end
    && (forall b: nat :: first < b <= last ==> Available(used, full, first, b) < need)
    && (Available(used, full, first, last + 1) >= need || last + 1 == end)
  }

  /** The slots before `last` are drained, `last` keeps the rest, and the others are as before. */
  ghost predicate DrainedTo(used: Ledger, after: Ledger, full: nat, first: nat, need: nat, last: nat, a: nat)
    requires Bounded(used, full)
  {
    var supply := Available(used, full, first, last + 1);
    Used(after, a) == if a < first || a > last then Used(used, a) else if a < last then full else Remains(full, supply, need)
  }

  /** How far the slot of `requestTime` is from the slot of the clock, in 32 bits. */
  function SlotsAhead(now: nat, requestTime: nat): nat
    requires now <= requestTime
  {
    (requestTime / 4000 - now / 4000) % 0x1_0000_0000
  }

  /** A request for the past or for 98304 and more slots of 4000 ns ahead costs nothing. */
  lemma FreeRequest(c: Chan, now: nat, requestTime: nat, length: nat)
    requires ChanOk(c) && c.curTime <= now && (now <= requestTime ==> SlotsAhead(now, requestTime) >= 98304)
    ensures EndTime(c, now, requestTime, length) == requestTime
    ensures After(c, now, requestTime, length) == c.(curTime := now, used := Moved(c, now))
  {
    hide Moved;
  }

  /** Any other takes a credit for each 128 bytes or part of them, from its slot on, and ends after its transfer time
      and the slots that it has to wait beyond those that so many credits take. `last` is where it ends. */
  lemma ChargedRequest(c: Chan, now: nat, requestTime: nat, length: nat) returns (last: nat)
    requires ChanOk(c) && c.curTime <= now <= requestTime && SlotsAhead(now, requestTime) < 98304
    ensures var units := (length + 127) / 128 % 0x1_0000_0000;
      var need := (units + c.commandCredits) % 0x1_0000_0000;
      var first := now / 4000 + SlotsAhead(now, requestTime);
      var after, before := After(c, now, requestTime, length), Moved(c, now);
      && after == c.(curTime := now, used := after.used)
      && EnoughIn(before, c.maxCredits % 256, first, now / 4000 + 98304, need, last)
      && (forall a: nat :: DrainedTo(before, after.used, c.maxCredits % 256, first, need, last, a))
      && EndTime(c, now, requestTime, length) == requestTime + c.xferLat * units % 0x1_0000_0000 +
           4000 * (if last - first > need / c.maxCredits then last - first - need / c.maxCredits else 0)
  {
    hide Moved, Bounded, Allocate, Available;
    var g := Grants(c, now, requestTime, length);
    last := g.last;
    MovedOk(c, now);
    GrantExact(Moved(c, now), c.maxCredits % 256, now / 4000 + SlotsAhead(now, requestTime), now / 4000 + 98304,
               Need(c, length));
  }

  lemma GrantExact(used: Ledger, full: nat, first: nat, end: nat, need: nat)
    requires Bounded(used, full) && first < end
    ensures var g := Allocate(used, full, first, end, need);
      && EnoughIn(used, full, first, end, need, g.last)
      && forall a: nat :: DrainedTo(used, g.used, full, first, need, g.last, a)
  {
    hide Allocate, Available, Bounded;
    var g := Allocate(used, full, first, end, need);
    forall b: nat | first < b <= g.last
      ensures Available(used, full, first, b) < need
    {
      AllocateFinishes(used, full, first, end, need, b);
    }
    AllocateFinishes(used, full, first, end, need, end);
    AllocateLast(used, full, first, end, need);
    forall a: nat
      ensures DrainedTo(used, g.used, full, first, need, g.last, a)
    {
      AllocateCharges(used, full, first, end, need, a);
    }
  }

  /** Nothing is granted by the clock alone: a gap below 2^32 slots changes no slot, and a longer one shows the slots
      that its low 32 bits leave again from the new slot on. */
  lemma ClockAlone(c: Chan, now: nat, a: nat)
    requires c.curTime <= now && UntouchedFrom(c.used, c.curTime / 4000 + 98304)
    ensures var gap := now / 4000 - c.curTime / 4000;
      Used(Moved(c, now), a)
      == if gap >= 0x1_0000_0000 && a >= now / 4000 then Used(c.used, a - (gap - gap % 0x1_0000_0000)) else Used(c.used, a)
  {
    AgedUsed(c.used, Base(c), now / 4000 - Base(c), 98304, a);
  }

  /** A request as the demand that the runs of Credits are made of; one that is not charged starts beyond the
      horizon. */
  function DemandOf(c: Chan, now: nat, requestTime: nat, length: nat): Demand
    requires c.curTime <= now
  {
    var base := now / UNIT_TIME_INTERVAL;
    Demand(base - Base(c), if Charged(now, requestTime) then StartSlot(now, requestTime) else base + NR_CREDIT_ENTRIES,
           Need(c, length))
  }

  /** Every request is a step of the runs whose bandwidth is bounded. */
  lemma AfterServes(c: Chan, now: nat, requestTime: nat, length: nat)
    requires ChanOk(c) && c.curTime <= now
    ensures var t := After(c, now, requestTime, length);
      Ring(t.used, Base(t)) == Serve(Ring(c.used, Base(c)), Full(c), NR_CREDIT_ENTRIES, DemandOf(c, now, requestTime, length))
  {
    MovedOk(c, now);
    hide Bounded, Aged, Allocate, StartSlot, Need;
  }

  class Channel {
    const avail: array<nat>
    const maxCredits: nat
    const commandCredits: nat
    const xferLat: nat
    var head: nat
    var validLen: nat
    var curTime: nat
    ghost var used: Ledger

    ghost function Ch(): Chan
      reads this
    {
      Chan(maxCredits, commandCredits, xferLat, curTime, used)
    }

    ghost predicate Valid()
      reads this, avail
    {
      maxCredits > 0 && RingOk(avail[..], head, Base(Ch()), validLen, Full(Ch()), used)
    }

    /** `chmodel_init`, given what the bandwidth macros evaluate to. */
    constructor (maxCredits: nat, xferLat: nat)
      requires maxCredits > 0
      ensures Valid() && fresh(avail)
      ensures Ch() == Chan(maxCredits, 0, xferLat, 0, map[])
    {
      head, validLen, curTime := 0, 0, 0;
      this.maxCredits := maxCredits;
      commandCredits := 0;
      this.xferLat := xferLat;
      var entries := new nat[NR_CREDIT_ENTRIES](_ => maxCredits % 256);
      avail := entries;
      used := map[];
    }

    /** `MEMSET` of `len` entries to a full entry. */
    method Refill(from: nat, len: nat)
      requires from + len <= avail.Length
      modifies avail
      ensures forall i :: 0 <= i < avail.Length ==>
        avail[i] == if from <= i < from + len then maxCredits % 256 else old(avail[i])
    {
      var i := from;
      while i < from + len
        invariant from <= i <= from + len
        invariant forall j :: 0 <= j < avail.Length ==>
          avail[j] == if from <= j < i then maxCredits % 256 else old(avail[j])
      {
        avail[i] := maxCredits % 256;
        i := i + 1;
      }
    }

    /** The first part of `chmodel_request`: the head moves to the slot of the current time. */
    method Advance(now: nat)
      requires Valid() && curTime <= now
      modifies this, avail
      ensures Valid() && Ch() == old(Ch()).(curTime := now, used := Moved(old(Ch()), now))
    {
      hide Aged, Tracks, Bounded, UntouchedFrom, Trunc32;
      var offs := Trunc32(now / UNIT_TIME_INTERVAL - curTime / UNIT_TIME_INTERVAL);
      offs := if offs < validLen then offs else validLen;
      ghost var later := Moved(Ch(), now);
      AdvanceRefines(avail[..], head, Base(Ch()), validLen, Full(Ch()), used,
                     now / UNIT_TIME_INTERVAL - curTime / UNIT_TIME_INTERVAL);
      if head + offs >= NR_CREDIT_ENTRIES {
        Refill(head, NR_CREDIT_ENTRIES - head);
        Refill(0, offs - (NR_CREDIT_ENTRIES - head));
      } else {
        Refill(head, offs);
      }
      assert avail[..] == Refilled(old(avail[..]), head, offs, Full(Ch()));
      head := (head + offs) % NR_CREDIT_ENTRIES;
      curTime := now;
      validLen := validLen - offs;
      used := later;
    }

    /** The loop of `chmodel_request`: greedy allocation from slot `start` up to the end of the ring. */
    method Charge(first: nat, need: nat, ghost start: nat) returns (pos: nat, delay: nat)
      requires Valid() && Base(Ch()) <= start < Base(Ch()) + NR_CREDIT_ENTRIES && first == RingPos(head, start - Base(Ch()))
      modifies this`used, avail
      ensures var g := Allocate(old(used), Full(Ch()), start, Base(Ch()) + NR_CREDIT_ENTRIES, need);
        && used == g.used && pos == RingPos(head, g.last - Base(Ch())) && delay == g.last - start
      ensures Tracks(avail[..], head, Base(Ch()), Full(Ch()), used)
    {
      hide Tracks, Bounded, Allocate, RingPos, Spend;
      pos := first;
      delay := 0;
      var remaining := need;
      ghost var slot := start;
      ghost var g := Allocate(used, Full(Ch()), start, Base(Ch()) + NR_CREDIT_ENTRIES, need);
      while true
        invariant Bounded(used, Full(Ch())) && start <= slot < Base(Ch()) + NR_CREDIT_ENTRIES
        invariant pos == RingPos(head, slot - Base(Ch())) && delay == slot - start
        invariant Tracks(avail[..], head, Base(Ch()), Full(Ch()), used)
        invariant g == Allocate(used, Full(Ch()), slot, Base(Ch()) + NR_CREDIT_ENTRIES, remaining)
        decreases Base(Ch()) + NR_CREDIT_ENTRIES - slot
      {
        ghost var entries := avail[..];
        ChargeStep(entries, head, Base(Ch()), Full(Ch()), used, slot, remaining, pos);
        InRing(entries, head, Base(Ch()), Full(Ch()), used, slot - Base(Ch()));
        var consumed := if remaining <= avail[pos] then remaining else avail[pos];
        avail[pos] := avail[pos] - consumed;
        assert avail[..] == entries[pos := entries[pos] - consumed];
        remaining := remaining - consumed;
        used := Spend(used, slot, consumed);
        if remaining != 0 {
          var nextPos := (pos + 1) % NR_CREDIT_ENTRIES;
          if nextPos != head {
            delay := delay + 1;
            pos := nextPos;
            slot := slot + 1;
          } else {
            break;
          }
        } else {
          break;
        }
      }
    }

    /** `chmodel_request`. The clock does not run backwards. */
    method Request(now: nat, requestTime: nat, length: nat) returns (t: nat)
      requires Valid() && curTime <= now
      modifies this, avail
      ensures Valid() && ChanOk(old(Ch()))
      ensures Ch() == After(old(Ch()), now, requestTime, length)
      ensures t == EndTime(old(Ch()), now, requestTime, length)
    {
      hide Bounded, Allocate, Tracks, Moved, Trunc32, DivRoundUp, After, EndTime;
      ghost var c := Ch();
      Advance(now);
      if requestTime < now {
        Uncharged(c, now, requestTime, length);
        return requestTime;
      }
      var requestOffs := Trunc32(requestTime / UNIT_TIME_INTERVAL - now / UNIT_TIME_INTERVAL);
      if requestOffs >= NR_CREDIT_ENTRIES {
        Uncharged(c, now, requestTime, length);
        return requestTime;
      }
      var units := Trunc32(DivRoundUp(length, UNIT_XFER_SIZE));
      var first := (head + requestOffs) % NR_CREDIT_ENTRIES;
      var needed := Trunc32(units + commandCredits);
      var defaultDelay := Div(needed, maxCredits);
      ghost var start, end := Base(Ch()) + requestOffs, Base(Ch()) + NR_CREDIT_ENTRIES;
      ghost var used0, g := used, Grants(c, now, requestTime, length);
      var pos, delay := Charge(first, needed, start);
      var validLength := if pos >= head then pos - head + 1 else NR_CREDIT_ENTRIES - (head - pos - 1);
      AllocateBounded(used0, Full(Ch()), start, end, needed);
      AllocateUntouched(used0, Full(Ch()), start, end, needed, Base(Ch()) + Max(validLen, validLength));
      if validLength > validLen {
        validLen := validLength;
      }
      delay := if delay > defaultDelay then delay - defaultDelay else 0;
      t := requestTime + Trunc32(xferLat * units) + delay * UNIT_TIME_INTERVAL;
      ChargedEnd(c, now, requestTime, length, g, t);
    }
  }
}
