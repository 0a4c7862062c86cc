/** Whole runs of host page writes, with garbage collection whenever the write credits run out. */
module FtlRuns {
  import opened Wrappers
  import opened Arith
  import opened Counting
  import opened NandArray
  import opened FtlModel
  import opened FtlSteps
  import opened FtlGc

  // ---------- one host page write ----------

  /** The body of the loop of `conv_write` up to `consume_write_credit`. */
  ghost function HostWrite(s: Ftl, lpn: nat, v: int): (t: Ftl)
    requires Core(s, -1, {}, -1) && lpn < |s.maptbl|
    requires Room(s, UserIo) >= 2
    ensures Core(t, -1, {}, -1)
    ensures Space(t) == Space(s) - 1 && t.credits == s.credits - 1
    ensures t.refill == s.refill && t.perLine == s.perLine
    ensures |t.maptbl| == |s.maptbl| && |t.status| == |s.status|
    ensures forall x :: 0 <= x < |s.maptbl| ==> WrittenEntry(s, t, lpn, v, x)
  {
    HostWriteCore(s, lpn, v);
    var u := Unmap(s, lpn);
    var t := Put(u, UserIo, lpn, v);
    t.(credits := t.credits - 1)
  }

  ghost function Unmap(s: Ftl, lpn: nat): Ftl
    requires Shape(s) && lpn < |s.maptbl|
    requires s.maptbl[lpn].Some? ==> InRange(s, s.maptbl[lpn].value)
  {
    if s.maptbl[lpn].Some? then Invalidate(s, s.maptbl[lpn].value) else s
  }

  ghost predicate WrittenEntry(s: Ftl, t: Ftl, lpn: nat, v: int, x: nat)
    requires |t.maptbl| == |s.maptbl| && x < |s.maptbl|
  {
    && Read(t, x) == (if x == lpn then Some(v) else Read(s, x))
    && (t.maptbl[x].Some? <==> s.maptbl[x].Some? || x == lpn)
    && (x != lpn ==> t.maptbl[x] == s.maptbl[x])
  }

  lemma UnmapCore(s: Ftl, lpn: nat)
    requires Core(s, -1, {}, -1) && lpn < |s.maptbl|
    ensures s.maptbl[lpn].Some? ==> InRange(s, s.maptbl[lpn].value)
    ensures Core(Unmap(s, lpn), -1, {}, lpn)
    ensures var u := Unmap(s, lpn);
      && u.maptbl == s.maptbl && u.data == s.data && Space(u) == Space(s) && Room(u, UserIo) == Room(s, UserIo) && u.perLine == s.perLine
      && u.credits == s.credits && u.refill == s.refill && |u.status| == |s.status|
      && (u.maptbl[lpn].Some? ==>
            var p := u.maptbl[lpn].value; InRange(u, p) && !Live(u, -1, {}, p.line, p.ord))
  {
    assert MapsBack(s, -1, {}, lpn);
    if s.maptbl[lpn].Some? {
      var p := s.maptbl[lpn].value;
      InvalidateShape(s, p);
      InvalidateLists(s, -1, p);
      InvalidateLines(s, -1, p);
      InvalidateMaps(s, -1, {}, p, lpn);
    }
  }

  lemma HostWriteCore(s: Ftl, lpn: nat, v: int)
    requires Core(s, -1, {}, -1) && lpn < |s.maptbl|
    requires Room(s, UserIo) >= 2
    ensures s.maptbl[lpn].Some? ==> InRange(s, s.maptbl[lpn].value)
    ensures CanPut(Unmap(s, lpn), UserIo, lpn)
    ensures var p := Put(Unmap(s, lpn), UserIo, lpn, v);
      var t := p.(credits := p.credits - 1);
      && Core(t, -1, {}, -1)
      && Space(t) == Space(s) - 1 && t.credits == s.credits - 1 && t.refill == s.refill && t.perLine == s.perLine
      && |t.maptbl| == |s.maptbl| && |t.status| == |s.status|
      && forall x :: 0 <= x < |s.maptbl| ==> WrittenEntry(s, t, lpn, v, x)
  {
    UnmapCore(s, lpn);
    hide Core, Space, Room, CanPut, Live, Put, Read;
    var u := Unmap(s, lpn);
    PutCore(u, -1, {}, UserIo, lpn, v);
    var p := Put(u, UserIo, lpn, v);
    var t := p.(credits := p.credits - 1);
    SameCore(p, t);
    PutFrame(u, UserIo, lpn, v);
    SameRead(p, t);
    SameRead(s, u);
    forall x | 0 <= x < |s.maptbl|
      ensures WrittenEntry(s, t, lpn, v, x)
    {
      PutRead(u, -1, {}, UserIo, lpn, v, x);
    }
  }

  lemma PutFrame(s: Ftl, io: IoType, lpn: nat, v: int)
    requires CanPut(s, io, lpn)
    ensures var t := Put(s, io, lpn, v);
      && t.credits == s.credits && t.refill == s.refill && t.perLine == s.perLine
      && |t.maptbl| == |s.maptbl| && |t.status| == |s.status|
      && t.maptbl[lpn].Some?
  {
  }

  lemma SameRead(s: Ftl, t: Ftl)
    requires t.maptbl == s.maptbl && t.data == s.data
    ensures forall x :: 0 <= x < |s.maptbl| ==> Read(t, x) == Read(s, x)
    ensures t.freeLines == s.freeLines && t.user == s.user && t.gc == s.gc && t.perLine == s.perLine ==> Space(t) == Space(s)
  {
  }

  /** The credits play no part in the structural invariant. */
  lemma SameCore(s: Ftl, t: Ftl)
    requires Core(s, -1, {}, -1) && t == s.(credits := t.credits)
    ensures Core(t, -1, {}, -1)
  {
    forall l | 0 <= l < |s.status|
      ensures Places(t, -1, l) == 1 && LineOk(t, l)
    {
      assert Places(s, -1, l) == 1 && LineOk(s, l);
    }
    forall x | 0 <= x < |t.maptbl|
      ensures MapsBack(t, -1, {}, x)
    {
      assert MapsBack(s, -1, {}, x);
    }
    forall l, o | 0 <= l < |t.status| && 0 <= o < t.perLine && Live(t, -1, {}, l, o)
      ensures MappedBy(t, l, o)
    {
      assert Live(s, -1, {}, l, o) && MappedBy(s, l, o);
    }
  }

  // ---------- counting mapped pages ----------

  /** Logical pages whose physical page comes before page `o` of line `l`. */
  ghost function MappedBefore(s: Ftl, l: nat, o: nat): set<nat> {
    set x | x in Mapped(s) && (s.maptbl[x].value.line < l || (s.maptbl[x].value.line == l && s.maptbl[x].value.ord < o))
  }

  ghost function SumVpc(s: Ftl, l: nat): int
    requires l <= |s.vpc|
  {
    if l == 0 then 0 else SumVpc(s, l - 1) + s.vpc[l - 1]
  }

  /** One more page: its logical page is the only one that is added. */
  lemma MappedNext(s: Ftl, l: nat, o: nat)
    requires Core(s, -1, {}, -1) && l < |s.status| && o < s.perLine && Valid == s.status[l][o]
    ensures s.rmap[l][o].Some?
    ensures var x := s.rmap[l][o].value;
      x !in MappedBefore(s, l, o) && MappedBefore(s, l, o + 1) == MappedBefore(s, l, o) + {x}
  {
    assert Live(s, -1, {}, l, o) && MappedBy(s, l, o);
    forall y | y in Mapped(s)
      ensures s.maptbl[y].value == Page(l, o) ==> y == s.rmap[l][o].value
    {
      assert MapsBack(s, -1, {}, y);
    }
    hide Core, Lists, Lines, Shape, Maps, MapsBack;
  }

  lemma UnmappedNext(s: Ftl, l: nat, o: nat)
    requires Core(s, -1, {}, -1) && l < |s.status| && o < s.perLine && Valid != s.status[l][o]
    ensures MappedBefore(s, l, o + 1) == MappedBefore(s, l, o)
  {
    forall y | y in Mapped(s)
      ensures s.maptbl[y].value != Page(l, o)
    {
      assert MapsBack(s, -1, {}, y);
    }
    hide Core, Lists, Lines, Shape, Maps, MapsBack;
  }

  lemma NextLine(s: Ftl, l: nat)
    requires Core(s, -1, {}, -1) && 0 < l < |s.status|
    ensures MappedBefore(s, l, 0) == MappedBefore(s, l - 1, s.perLine)
  {
    forall y | y in Mapped(s)
      ensures s.maptbl[y].value.ord < s.perLine
    {
      assert MapsBack(s, -1, {}, y);
    }
    hide Core, Lists, Lines, Shape, Maps, MapsBack;
  }

  lemma CountedLine(s: Ftl, l: nat)
    requires Core(s, -1, {}, -1) && l < |s.status|
    ensures |s.vpc| == |s.status| && |s.status[l]| == s.perLine && s.vpc[l] == CountIn(s.status[l], 0, s.perLine, Valid)
  {
    assert LineOk(s, l);
  }

  lemma {:induction false} CountMapped(s: Ftl, l: nat, o: nat)
    requires Core(s, -1, {}, -1) && l < |s.status| == |s.vpc| && o <= s.perLine == |s.status[l]|
    ensures |MappedBefore(s, l, o)| == SumVpc(s, l) + CountIn(s.status[l], 0, o, Valid)
    decreases l, o
  {
    hide Core, MappedBefore;
    CountedLine(s, l);
    if o > 0 {
      CountMapped(s, l, o - 1);
      if s.status[l][o - 1] == Valid {
        MappedNext(s, l, o - 1);
      } else {
        UnmappedNext(s, l, o - 1);
      }
    } else if l > 0 {
      CountedLine(s, l - 1);
      CountMapped(s, l - 1, s.perLine);
      NextLine(s, l);
    } else {
      NothingBefore(s);
    }
  }

  lemma NothingBefore(s: Ftl)
    ensures MappedBefore(s, 0, 0) == {}
  {
  }

  /** The valid pages of the device are as many as the logical pages that have been written. */
  lemma ValidPagesAreMapped(s: Ftl)
    requires Core(s, -1, {}, -1)
    ensures SumVpc(s, |s.vpc|) == |Mapped(s)|
  {
    var l := |s.status| - 1;
    CountedLine(s, l);
    CountMapped(s, l, s.perLine);
    forall y | y in Mapped(s)
      ensures y in MappedBefore(s, l, s.perLine)
    {
      assert MapsBack(s, -1, {}, y);
    }
    assert Mapped(s) == MappedBefore(s, l, s.perLine);
    hide Core, MappedBefore, Mapped;
  }

  /** The full lines among the first `l`. */
  ghost function FullBelow(s: Ftl, l: nat): (f: set<nat>)
    ensures forall x :: x in f <==> x in s.fullLines && x < l
  {
    set x | x in s.fullLines && x < l
  }

  lemma LineVpc(s: Ftl, l: nat)
    requires Core(s, -1, {}, -1) && l < |s.status|
    ensures |s.vpc| == |s.status| && 0 <= s.vpc[l] <= s.perLine
    ensures l in s.fullLines ==> s.vpc[l] == s.perLine
  {
    assert LineOk(s, l);
  }

  /** Another line with valid pages. */
  ghost predicate Used(s: Ftl, u: int) {
    0 <= u < |s.vpc| ==> u !in s.fullLines && s.vpc[u] > 0
  }

  lemma {:induction false} FullLinesCount(s: Ftl, u: int, l: nat)
    requires Core(s, -1, {}, -1) && l <= |s.status| == |s.vpc| && Used(s, u)
    ensures SumVpc(s, l) >= |FullBelow(s, l)| * s.perLine + Bit(0 <= u < l)
  {
    hide Core;
    if l > 0 {
      FullLinesCount(s, u, l - 1);
      LineVpc(s, l - 1);
      if l - 1 in s.fullLines {
        assert FullBelow(s, l) == FullBelow(s, l - 1) + {l - 1};
        Distribute(|FullBelow(s, l - 1)|, 1, s.perLine);
      } else {
        assert FullBelow(s, l) == FullBelow(s, l - 1);
      }
    } else {
      assert FullBelow(s, l) == {};
    }
  }

  /** The line counters of `struct line_mgmt` add up to the number of lines. */
  lemma LineCounts(s: Ftl)
    requires Core(s, -1, {}, -1)
    ensures |s.freeLines| + |s.fullLines| + |s.victims| + 2 == |s.status|
  {
    NoDupSize(s.freeLines);
    NoDupSize(s.fullLines);
    forall l | 0 <= l < |s.status|
      ensures Bit(l in Elements(s.freeLines)) + Bit(l in Elements(s.fullLines)) + Bit(l in s.victims)
              + Bit(l == s.user.line) + Bit(l == s.gc.line) == 1
    {
      assert Places(s, -1, l) == 1;
    }
    PartitionSizes(|s.status|, Elements(s.freeLines), Elements(s.fullLines), s.victims, s.user.line, s.gc.line);
  }

  lemma PartitionSizes(n: nat, f: set<nat>, g: set<nat>, v: set<nat>, u: nat, w: nat)
    requires f <= Upto(n) && g <= Upto(n) && v <= Upto(n) && u < n && w < n
    requires forall l :: 0 <= l < n ==> Bit(l in f) + Bit(l in g) + Bit(l in v) + Bit(l == u) + Bit(l == w) == 1
    ensures |f| + |g| + |v| + 2 == n
  {
    forall l | 0 <= l < n
      ensures l in f ==> l !in g && l !in v && l != u && l != w
      ensures l in g ==> l !in v && l != u && l != w
      ensures l in v ==> l != u && l != w
      ensures l == u ==> l != w
      ensures l in f || l in g || l in v || l == u || l == w
    {
    }
    DisjointSizes(n, f, g, v, u, w);
    hide Bit;
  }

  lemma DisjointSizes(n: nat, f: set<nat>, g: set<nat>, v: set<nat>, u: nat, w: nat)
    requires f !! g && f + g !! v && u !in f + g + v && w !in f + g + v && u != w
    requires f + g + v + {u, w} == Upto(n)
    ensures |f| + |g| + |v| + 2 == n
  {
    assert |f + g| == |f| + |g| && |f + g + v| == |f + g| + |v|;
    var lists := f + g + v;
    assert lists + {u} + {w} == Upto(n);
    assert |lists + {u}| == |lists| + 1 && |lists + {u} + {w}| == |lists| + 2;
  }

  lemma AllFullLinesCount(s: Ftl, u: int)
    requires Core(s, -1, {}, -1) && Used(s, u)
    ensures |s.vpc| == |s.status| && SumVpc(s, |s.vpc|) >= |s.fullLines| * s.perLine + Bit(0 <= u < |s.status|)
  {
    FullLinesCount(s, u, |s.status|);
    NoDupSize(s.fullLines);
    assert FullBelow(s, |s.status|) == Elements(s.fullLines);
  }

  /** With at most two free lines and few enough written pages, some line has an invalid page. With as many pages as
      all but four lines hold, there may be none, but then exactly two lines are free and all valid pages are on full
      lines. */
  lemma VictimExists(s: Ftl, u: int)
    requires Core(s, -1, {}, -1) && Used(s, u)
    requires |s.freeLines| <= GC_THRES_LINES && s.victims == {}
    requires |Mapped(s)| <= (|s.status| - 4) * s.perLine
    ensures |Mapped(s)| == (|s.status| - 4) * s.perLine && |s.freeLines| == 2 && !(0 <= u < |s.status|)
  {
    LineCounts(s);
    ValidPagesAreMapped(s);
    AllFullLinesCount(s, u);
    var full, most := |s.fullLines|, |s.status| - 4;
    assert s.perLine > 0;
    hide *;
    MulMono(most, full, s.perLine);
    if most < full {
      MulMono(most + 1, full, s.perLine);
      Distribute(most, 1, s.perLine);
      assert false;
    }
  }

  // ---------- credits ----------

  /** GC is forced when the credits are used up and at most two lines are free. */
  ghost predicate GcForced(s: Ftl) {
    s.credits <= 0 && |s.freeLines| <= GC_THRES_LINES
  }

  /** If GC is forced and finds a victim, it will not run out of free lines. */
  ghost predicate GcFits(s: Ftl) {
    GcForced(s) ==> forall v :: IsVictim(s, v) ==> HasRoom(s, v)
  }

  /** The line that a forced GC takes, if there is one to take. */
  ghost predicate MayTake(s: Ftl, victim: nat) {
    GcForced(s) && s.victims != {} ==> IsVictim(s, victim)
  }

  /** `check_and_refill_write_credit`. A forced GC that finds no victim leaves the refill amount of the last GC
      behind, which is granted again. */
  ghost function Replenish(s: Ftl, victim: nat, order: seq<nat>): Ftl
    requires Core(s, -1, {}, -1) && ScansLine(order, s.perLine)
    requires GcFits(s) && MayTake(s, victim)
  {
    if s.credits > 0 then s
    else
      var g := if |s.freeLines| <= GC_THRES_LINES && s.victims != {} then Gc(s, victim, order) else s;
      g.(credits := g.credits + g.refill)
  }

  ghost predicate KeptEntry(s: Ftl, t: Ftl, x: nat)
    requires |t.maptbl| == |s.maptbl| && x < |s.maptbl|
  {
    Read(t, x) == Read(s, x) && (s.maptbl[x].Some? <==> t.maptbl[x].Some?)
  }

  /** Refilling the credits changes no reading and never takes space, whether or not a GC was due and found a
      victim. */
  lemma ReplenishGoing(s: Ftl, victim: nat, order: seq<nat>)
    requires Core(s, -1, {}, -1) && s.credits >= 0 && 0 < s.refill <= s.perLine
    requires ScansLine(order, s.perLine) && GcFits(s) && MayTake(s, victim)
    ensures var t := Replenish(s, victim, order);
      && Going(t) && t.perLine == s.perLine && |t.status| == |s.status| && |t.maptbl| == |s.maptbl|
      && Space(t) >= Space(s)
      && (forall x :: 0 <= x < |s.maptbl| ==> KeptEntry(s, t, x))
  {
    hide Core, ScansLine, Gc;
    var t := Replenish(s, victim, order);
    if s.credits == 0 {
      if |s.freeLines| <= GC_THRES_LINES && s.victims != {} {
        var g := Gc(s, victim, order);
        SameCore(g, t);
        forall x | 0 <= x < |s.maptbl|
          ensures KeptEntry(s, t, x)
        {
          assert Relocated(s, g, victim, x);
        }
      } else {
        SameCore(s, t);
      }
    }
  }

  /** The state after a page write, before the credits are looked at. */
  ghost predicate Spent(s: Ftl) {
    && Core(s, -1, {}, -1)
    && s.credits >= 0 && Space(s) - s.credits >= 2 * s.perLine + 1
    && 0 < s.refill <= s.perLine
  }

  /** With the reserve of two lines no GC runs out of free lines. */
  lemma ReserveFits(s: Ftl)
    requires Core(s, -1, {}, -1) && Space(s) >= 2 * s.perLine + 1
    ensures GcFits(s)
  {
    hide Core, Space, Room;
    assert s.user.next < s.perLine && s.gc.next < s.perLine by {
      RevealPointers(s);
    }
    SpaceMeansRoom(s, GcIo);
    forall v | IsVictim(s, v)
      ensures HasRoom(s, v)
    {
      SelectCore(s, v);
    }
  }

  lemma RevealPointers(s: Ftl)
    requires Core(s, -1, {}, -1)
    ensures s.user.next < s.perLine && s.gc.next < s.perLine
  {
  }

  /** A GC gains as much space as it grants credits, without a forced GC at least three lines are free, and a GC
      without a victim has been left a line more. */
  lemma RefillKeepsReserve(s: Ftl, g: Ftl)
    requires Core(s, -1, {}, -1) && s.credits == g.credits == 0 && g.perLine == s.perLine
    requires 0 < g.refill <= s.perLine
    requires if |s.freeLines| <= GC_THRES_LINES && s.victims != {}
      then Space(s) >= 2 * s.perLine + 1 && Space(g) == Space(s) + g.refill
      else g == s && (|s.freeLines| <= GC_THRES_LINES ==> Space(s) >= 3 * s.perLine + 1)
    ensures Space(g) - g.refill >= 2 * s.perLine + 1
  {
    if |s.freeLines| > GC_THRES_LINES {
      MulMono(3, |s.freeLines|, s.perLine);
    }
  }

  /** The reserve stays if a forced GC finds a victim, or else has a third line of space. */
  lemma ReplenishInv(s: Ftl, victim: nat, order: seq<nat>)
    requires Spent(s) && ScansLine(order, s.perLine) && MayTake(s, victim)
    requires GcForced(s) && s.victims == {} ==> Space(s) >= 3 * s.perLine + 1
    ensures GcFits(s) && Inv(Replenish(s, victim, order))
  {
    ReserveFits(s);
    hide Core, ScansLine, Gc, HasRoom, GcFits;
    var t := Replenish(s, victim, order);
    if s.credits == 0 {
      var g := if |s.freeLines| <= GC_THRES_LINES && s.victims != {} then Gc(s, victim, order) else s;
      RefillKeepsReserve(s, g);
      SameCore(g, t);
    }
  }

  // ---------- one round of the loop of conv_write ----------

  /** The page and the GC it may cause find a free line behind every line they use up. */
  ghost predicate PageFits(s: Ftl, lpn: nat, v: int)
    requires Core(s, -1, {}, -1) && lpn < |s.maptbl|
  {
    Room(s, UserIo) >= 2 && GcFits(HostWrite(s, lpn, v))
  }

  /** A host write uses one credit. */
  lemma HostWriteGoing(s: Ftl, lpn: nat, v: int)
    requires Going(s) && lpn < |s.maptbl| && Room(s, UserIo) >= 2
    ensures var w := HostWrite(s, lpn, v);
      && Core(w, -1, {}, -1) && w.credits >= 0 && 0 < w.refill <= w.perLine
      && Mapped(w) == Mapped(s) + {lpn}
  {
    var w := HostWrite(s, lpn, v);
    assert forall x :: 0 <= x < |s.maptbl| ==> WrittenEntry(s, w, lpn, v, x);
    hide Core, HostWrite;
  }

  /** The states between the steps of a page write. */
  lemma PageSteps(s: Ftl, lpn: nat, v: int)
    requires Going(s) && lpn < |s.maptbl| && Room(s, UserIo) >= 2
    ensures Core(s, -1, {}, -1)
    ensures s.maptbl[lpn].Some? ==> InRange(s, s.maptbl[lpn].value)
    ensures var u := Unmap(s, lpn);
      && Core(u, -1, {}, lpn) && CanPut(u, UserIo, lpn)
      && var p := Put(u, UserIo, lpn, v);
      && p.credits > 0
      && HostWrite(s, lpn, v) == p.(credits := p.credits - 1)
    ensures var w := HostWrite(s, lpn, v); Core(w, -1, {}, -1) && w.perLine == s.perLine
  {
    HostWriteGoing(s, lpn, v);
    UnmapCore(s, lpn);
    HostWriteCore(s, lpn, v);
    hide Core, CanPut, Put, Unmap, Space, Room;
  }

  lemma InvHasRoom(s: Ftl)
    requires Inv(s)
    ensures Going(s) && Space(s) >= 2 * s.perLine + 2 && Room(s, UserIo) >= 2
  {
    SpaceMeansRoom(s, UserIo);
    hide Core, Space, Room;
  }

  lemma HostWriteSpends(s: Ftl, lpn: nat, v: int)
    requires Inv(s) && lpn < |s.maptbl|
    ensures Room(s, UserIo) >= 2
    ensures Spent(HostWrite(s, lpn, v))
    ensures Mapped(HostWrite(s, lpn, v)) == Mapped(s) + {lpn}
  {
    InvHasRoom(s);
    HostWriteGoing(s, lpn, v);
    hide Core, HostWrite, Room;
  }

  /** With a page more than two lines of space left, the next page and its GC find their free lines. */
  lemma SpaceFits(s: Ftl, lpn: nat, v: int)
    requires Going(s) && lpn < |s.maptbl| && Space(s) >= 2 * s.perLine + 2
    ensures PageFits(s, lpn, v)
  {
    hide Core, HostWrite, GcFits, Room, Space;
    RevealPointers(s);
    SpaceMeansRoom(s, UserIo);
    ReserveFits(HostWrite(s, lpn, v));
  }

  /** At most (tt_lines - 4) * pgs_per_line written pages. */
  ghost predicate FewWritten(s: Ftl, lpn: nat) {
    |Mapped(s) + {lpn}| <= (|s.status| - 4) * s.perLine
  }

  /** The line the page is written to keeps it as a valid page, unless this was the last page of the line. */
  lemma UserLineUsed(s: Ftl, lpn: nat, v: int)
    requires Core(s, -1, {}, -1) && lpn < |s.maptbl| && Room(s, UserIo) >= 2
    ensures var w := HostWrite(s, lpn, v); w.user.next > 0 ==> Used(w, w.user.line)
  {
    HostWriteCore(s, lpn, v);
    UnmapCore(s, lpn);
    var u := Unmap(s, lpn);
    OpenLineAfter(u, lpn, v);
  }

  lemma OpenLineAfter(u: Ftl, lpn: nat, v: int)
    requires Core(u, -1, {}, lpn) && CanPut(u, UserIo, lpn)
    ensures var p := Put(u, UserIo, lpn, v); p.user.next > 0 ==> Used(p, p.user.line)
  {
    OpenLine(u, -1, UserIo);
  }

  /** A forced GC that finds no victim in a run over at most as many pages as all but four lines hold: only the last
      page of a line can bring this about, and a third line of space is left. */
  lemma StuckHasSpace(s: Ftl, lpn: nat, v: int)
    requires Inv(s) && lpn < |s.maptbl| && FewWritten(s, lpn)
    ensures Room(s, UserIo) >= 2
    ensures var w := HostWrite(s, lpn, v);
      GcForced(w) && w.victims == {} ==>
        Space(w) >= 3 * w.perLine + 1 && |Mapped(w)| == (|w.status| - 4) * w.perLine
  {
    hide Core, HostWrite, Mapped, Space, Room;
    HostWriteSpends(s, lpn, v);
    var w := HostWrite(s, lpn, v);
    if GcForced(w) && w.victims == {} {
      UserLineUsed(s, lpn, v);
      HostWriteSizes(s, lpn, v);
      VictimExists(w, if w.user.next > 0 then w.user.line else -1);
      StuckSpace(w);
    }
  }

  lemma HostWriteSizes(s: Ftl, lpn: nat, v: int)
    requires Core(s, -1, {}, -1) && lpn < |s.maptbl| && Room(s, UserIo) >= 2
    ensures var w := HostWrite(s, lpn, v);
      && |w.status| == |s.status| && w.perLine == s.perLine && w.user.line < |w.status|
  {
    OpenLine(HostWrite(s, lpn, v), -1, UserIo);
    hide HostWrite, Lists, Lines, Maps, Room;
  }

  lemma StuckSpace(w: Ftl)
    requires Core(w, -1, {}, -1) && |w.freeLines| == 2 && w.user.next == 0
    ensures Space(w) >= 3 * w.perLine + 1
  {
    RevealPointers(w);
    hide Core;
  }

  /** A page write changes what its logical page reads and nothing else. It keeps the state going at the cost of at
      most one page of space, and keeps the reserve when few enough pages have been written. */
  lemma WriteEffect(s: Ftl, lpn: nat, v: int, victim: nat, order: seq<nat>)
    requires Going(s) && lpn < |s.maptbl| && ScansLine(order, s.perLine) && PageFits(s, lpn, v)
    requires MayTake(HostWrite(s, lpn, v), victim)
    ensures var t := Replenish(HostWrite(s, lpn, v), victim, order);
      && Going(t) && t.perLine == s.perLine && |t.status| == |s.status| && |t.maptbl| == |s.maptbl|
      && Space(t) >= Space(s) - 1
      && (forall x :: 0 <= x < |s.maptbl| ==> Read(t, x) == if x == lpn then Some(v) else Read(s, x))
      && Mapped(t) == Mapped(s) + {lpn}
      && (Inv(s) && FewWritten(s, lpn) ==> Inv(t))
  {
    hide Core, ScansLine, Replenish, Space, FewWritten, GcFits, MayTake;
    HostWriteGoing(s, lpn, v);
    var w := HostWrite(s, lpn, v);
    ReplenishGoing(w, victim, order);
    var t := Replenish(w, victim, order);
    forall x | 0 <= x < |s.maptbl|
      ensures Read(t, x) == if x == lpn then Some(v) else Read(s, x)
      ensures x in Mapped(t) <==> x in Mapped(s) + {lpn}
    {
      assert WrittenEntry(s, w, lpn, v, x) && KeptEntry(w, t, x);
    }
    if Inv(s) && FewWritten(s, lpn) {
      HostWriteSpends(s, lpn, v);
      StuckHasSpace(s, lpn, v);
      ReplenishInv(w, victim, order);
    }
  }

  // ---------- runs ----------

  datatype Write = Write(lpn: nat, v: int)

  /** What a run depends on besides its writes: the sizes, the order in which GC scans a line, and the victim that is
      taken after the `k`-th write. Which of several equal victims the heap yields depends on its layout, so any rule
      is allowed, also one that breaks the same tie differently later on. */
  datatype Device = Device(lines: nat, perLine: nat, pages: nat, choose: (nat, Ftl) -> nat, order: seq<nat>)

  /** A rule for choosing among the victims with the fewest valid pages. */
  ghost predicate ChoosesVictim(choose: (nat, Ftl) -> nat) {
    forall k: nat, s: Ftl :: Shape(s) && Lists(s, -1) && s.victims != {} ==> IsVictim(s, choose(k, s))
  }

  ghost predicate Ok(d: Device) {
    d.lines >= 2 && d.perLine > 0 && ChoosesVictim(d.choose) && ScansLine(d.order, d.perLine)
  }

  lemma {:induction false} LeastAmong(s: Ftl, vs: set<nat>) returns (v: nat)
    requires vs != {} && forall u :: u in vs ==> u < |s.vpc|
    ensures v in vs && forall u :: u in vs ==> s.vpc[v] <= s.vpc[u]
  {
    v :| v in vs;
    var rest := vs - {v};
    if rest != {} {
      var w := LeastAmong(s, rest);
      if s.vpc[w] < s.vpc[v] {
        v := w;
      }
    }
  }

  ghost function AnyVictim(s: Ftl): nat {
    if v: nat :| IsVictim(s, v) then v else 0
  }

  /** Devices of all sizes exist: some rule chooses victims, and some order scans a line. */
  lemma DeviceExists(lines: nat, perLine: nat, pages: nat) returns (d: Device)
    requires lines >= 2 && perLine > 0
    ensures Ok(d) && (d.lines, d.perLine, d.pages) == (lines, perLine, pages)
  {
    var order := seq(perLine, i requires 0 <= i => i);
    forall x
      ensures x in Elements(order) <==> x in Upto(perLine)
    {
      assert 0 <= x < perLine ==> order[x] == x;
    }
    d := Device(lines, perLine, pages, (k, s) => AnyVictim(s), order);
    forall k: nat, s: Ftl | Shape(s) && Lists(s, -1) && s.victims != {}
      ensures IsVictim(s, d.choose(k, s))
    {
      var v := LeastAmong(s, s.victims);
      assert IsVictim(s, v);
    }
  }

  ghost predicate Sized(d: Device, s: Ftl) {
    s.perLine == d.perLine && |s.status| == d.lines && |s.maptbl| == d.pages
  }

  /** `conv_init_ftl`: all lines free, the first two opened for host and GC writes. */
  ghost function Init(lines: nat, perLine: nat, pages: nat): Ftl
    requires lines >= 2
  {
    Ftl(perLine,
        seq(pages, _ => None),
        seq(lines, _ => seq(perLine, _ => None)),
        seq(lines, _ => seq(perLine, _ => Free)),
        seq(lines, _ => seq(perLine, _ => 0)),
        seq(lines, _ => 0), seq(lines, _ => 0),
        seq(lines - 2, i requires 0 <= i => i + 2), [], {},
        WritePointer(0, 0), WritePointer(1, 0),
        perLine, perLine)
  }

  lemma InitLines(lines: nat, perLine: nat, pages: nat)
    requires lines >= 2 && perLine > 0
    ensures Shape(Init(lines, perLine, pages)) && Lines(Init(lines, perLine, pages))
  {
    var s := Init(lines, perLine, pages);
    forall l | 0 <= l < lines
      ensures LineOk(s, l)
    {
      if l >= 2 {
        assert s.freeLines[l - 2] == l;
      }
      CountNone(s.status[l], 0, perLine, Valid);
      CountNone(s.status[l], 0, perLine, Invalid);
    }
  }

  lemma InitGoing(lines: nat, perLine: nat, pages: nat)
    requires lines >= 2 && perLine > 0
    ensures Going(Init(lines, perLine, pages))
    ensures var s := Init(lines, perLine, pages);
      && s.perLine == perLine && |s.status| == lines && |s.maptbl| == pages && Mapped(s) == {}
      && forall x :: 0 <= x < pages ==> Read(s, x) == None
  {
    var s := Init(lines, perLine, pages);
    forall l | 0 <= l < lines
      ensures Places(s, -1, l) == 1
    {
      if l >= 2 {
        assert s.freeLines[l - 2] == l;
      }
    }
    InitLines(lines, perLine, pages);
    hide LineOk, Written, Places;
  }

  lemma InitInv(lines: nat, perLine: nat, pages: nat)
    requires lines >= 5 && perLine > 0
    ensures Inv(Init(lines, perLine, pages))
  {
    InitGoing(lines, perLine, pages);
    hide Core;
    MulMono(3, lines - 2, perLine);
  }

  lemma Chosen(d: Device, k: nat, s: Ftl)
    requires Ok(d) && Core(s, -1, {}, -1)
    ensures MayTake(s, d.choose(k, s))
  {
  }

  /** The `k`-th write of a run, one iteration of the loop of `conv_write`. None when a used-up line has no free
      successor: `get_next_free_line` then returns NULL, which the code takes for a line. */
  ghost function PageWrite(d: Device, k: nat, s: Ftl, w: Write): (r: Option<Ftl>)
    requires Ok(d) && Going(s) && Sized(d, s) && w.lpn < d.pages
    ensures r.Some? <==> PageFits(s, w.lpn, w.v)
    ensures r.Some? ==> Going(r.value) && Sized(d, r.value)
  {
    hide Core, ScansLine, GcFits, MayTake, ChoosesVictim, Room, HostWrite;
    if PageFits(s, w.lpn, w.v) then
      var u := HostWrite(s, w.lpn, w.v);
      Chosen(d, k, u);
      WriteEffect(s, w.lpn, w.v, d.choose(k, u), d.order);
      Some(Replenish(u, d.choose(k, u), d.order))
    else None
  }

  ghost predicate WritesTo(writes: seq<Write>, written: set<nat>) {
    forall i :: 0 <= i < |writes| ==> writes[i].lpn in written
  }

  /** Any run of page writes; None when it takes a line from the empty free list. */
  ghost function Run(d: Device, writes: seq<Write>): (r: Option<Ftl>)
    requires Ok(d) && WritesTo(writes, Upto(d.pages))
    ensures r.Some? ==> Going(r.value) && Sized(d, r.value)
  {
    hide Going, Ok, Sized;
    if writes == [] then
      Started(d);
      Some(Init(d.lines, d.perLine, d.pages))
    else
      var k := |writes| - 1;
      assert writes[k].lpn in Upto(d.pages);
      var s := Run(d, writes[..k]);
      if s == None then None else PageWrite(d, k, s.value, writes[k])
  }

  lemma Started(d: Device)
    requires Ok(d)
    ensures d.lines >= 2 && Going(Init(d.lines, d.perLine, d.pages)) && Sized(d, Init(d.lines, d.perLine, d.pages))
  {
    InitGoing(d.lines, d.perLine, d.pages);
  }

  /** A run that is one write longer. */
  lemma RunNext(d: Device, writes: seq<Write>, w: Write)
    requires Ok(d) && WritesTo(writes, Upto(d.pages)) && w.lpn < d.pages
    ensures WritesTo(writes + [w], Upto(d.pages))
    ensures Run(d, writes + [w]) == match Run(d, writes)
      case None => None
      case Some(s) => PageWrite(d, |writes|, s, w)
  {
    hide Ok, PageWrite, Init;
    assert (writes + [w])[..|writes|] == writes;
  }

  /** The value last written to a logical page. */
  ghost function LastWrite(writes: seq<Write>, lpn: nat): Option<int> {
    if writes == [] then None
    else
      var k := |writes| - 1;
      if writes[k].lpn == lpn then Some(writes[k].v) else LastWrite(writes[..k], lpn)
  }

  lemma PageWriteEffect(d: Device, k: nat, s: Ftl, w: Write)
    requires Ok(d) && Going(s) && Sized(d, s) && w.lpn < d.pages && PageFits(s, w.lpn, w.v)
    ensures var t := PageWrite(d, k, s, w).value;
      && (forall x :: 0 <= x < d.pages ==> Read(t, x) == if x == w.lpn then Some(w.v) else Read(s, x))
      && Mapped(t) == Mapped(s) + {w.lpn}
      && (Inv(s) && FewWritten(s, w.lpn) ==> Inv(t))
  {
    hide Core, ScansLine, GcFits, MayTake, ChoosesVictim, Room, HostWrite, Read, Mapped, FewWritten, Inv;
    var u := HostWrite(s, w.lpn, w.v);
    Chosen(d, k, u);
    WriteEffect(s, w.lpn, w.v, d.choose(k, u), d.order);
  }

  /** In every run, over however many pages and with garbage collection moving pages at any point, every logical page
      reads the value last written to it, as long as the run does not fail. */
  lemma {:induction false} RunReads(d: Device, writes: seq<Write>, x: nat)
    requires Ok(d) && WritesTo(writes, Upto(d.pages)) && x < d.pages
    ensures Run(d, writes).Some? ==> Read(Run(d, writes).value, x) == LastWrite(writes, x)
  {
    hide Ok, Going, Read, Init, PageFits;
    if writes == [] {
      InitReads(d, x);
    } else {
      var k := |writes| - 1;
      RunReads(d, writes[..k], x);
      if Run(d, writes).Some? {
        assert writes[k].lpn in Upto(d.pages);
        PageWriteReads(d, k, Run(d, writes[..k]).value, writes[k], x);
      }
    }
  }

  lemma InitReads(d: Device, x: nat)
    requires Ok(d) && x < d.pages
    ensures d.lines >= 2 && Read(Init(d.lines, d.perLine, d.pages), x) == None
  {
    InitGoing(d.lines, d.perLine, d.pages);
  }

  lemma PageWriteReads(d: Device, k: nat, s: Ftl, w: Write, x: nat)
    requires Ok(d) && Going(s) && Sized(d, s) && w.lpn < d.pages && x < d.pages && PageWrite(d, k, s, w).Some?
    ensures Read(PageWrite(d, k, s, w).value, x) == if x == w.lpn then Some(w.v) else Read(s, x)
  {
    hide Ok, Going, Read, PageFits, PageWrite;
    PageWriteEffect(d, k, s, w);
  }

  /** A run over at most (tt_lines - 4) * pgs_per_line logical pages never fails: behind every used-up line there is
      a free line, also when a forced GC finds no victim. */
  lemma {:induction false} RunNeverFails(d: Device, writes: seq<Write>, written: set<nat>)
    requires Ok(d) && d.lines >= 5 && written <= Upto(d.pages)
    requires WritesTo(writes, written) && WritesTo(writes, Upto(d.pages))
    requires |written| <= (d.lines - 4) * d.perLine
    ensures Run(d, writes).Some?
    ensures Inv(Run(d, writes).value) && Mapped(Run(d, writes).value) <= written
  {
    hide ChoosesVictim, ScansLine, Inv, Going, PageWrite, PageFits, Init, Space, Room;
    if writes == [] {
      InitGoing(d.lines, d.perLine, d.pages);
      InitInv(d.lines, d.perLine, d.pages);
    } else {
      var k := |writes| - 1;
      RunNeverFails(d, writes[..k], written);
      var s := Run(d, writes[..k]).value;
      SubsetSize(Mapped(s) + {writes[k].lpn}, written);
      InvHasRoom(s);
      SpaceFits(s, writes[k].lpn, writes[k].v);
      PageWriteEffect(d, k, s, writes[k]);
    }
  }
}
