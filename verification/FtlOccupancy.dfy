/** Which logical pages each line holds. This is all that decides when garbage collection is forced, which lines it may
    take and whether a free line is there when one is needed: where in their lines the pages are, and what they hold,
    plays no part. */
module FtlOccupancy {
  import opened Wrappers
  import opened Counting
  import opened NandArray
  import opened FtlModel
  import opened FtlSteps
  import opened FtlGc
  import opened FtlRuns
  import opened FtlScan

  /** The pages that move to line `l` leave the line they were on. */
  ghost function Spread(on: seq<set<nat>>, l: nat, pages: set<nat>): (r: seq<set<nat>>)
    ensures |r| == |on|
    ensures forall k :: 0 <= k < |on| ==> r[k] == if k == l then on[k] + pages else on[k] - pages
  {
    seq(|on|, k requires 0 <= k < |on| => if k == l then on[k] + pages else on[k] - pages)
  }

  datatype Occupancy = Occupancy(perLine: nat, on: seq<set<nat>>, free: seq<nat>, user: WritePointer, gc: WritePointer,
                                 credits: int, refill: int)
  {
    function Pointer(io: IoType): WritePointer {
      if io.UserIo? then user else gc
    }

    function At(io: IoType, w: WritePointer): Occupancy {
      if io.UserIo? then this.(user := w) else this.(gc := w)
    }

    /** The page under the write pointer is followed by another one. */
    ghost predicate Can(io: IoType) {
      Pointer(io).next + 1 == perLine ==> free != []
    }

    /** One page write. */
    ghost function Put(io: IoType, x: nat): Occupancy {
      var w := Pointer(io);
      var p := this.(on := Spread(on, w.line, {x}), credits := credits - Bit(io.UserIo?));
      if w.next + 1 != perLine then p.At(io, WritePointer(w.line, w.next + 1))
      else if free != [] then p.(free := free[1..]).At(io, WritePointer(free[0], 0))
      else p
    }

    ghost function Puts(io: IoType, xs: seq<nat>): Occupancy {
      if xs == [] then this
      else Puts(io, xs[..|xs| - 1]).Put(io, xs[|xs| - 1])
    }

    /** Neither free nor open. */
    ghost predicate Closed(l: nat) {
      l < |on| && l != user.line && l != gc.line && l !in free
    }

    ghost predicate Victim(l: nat) {
      Closed(l) && |on[l]| < perLine
    }

    /** The only line with the fewest pages among the victims. */
    ghost predicate Least(v: nat) {
      Victim(v) && forall u: nat :: u != v && Victim(u) ==> |on[v]| < |on[u]|
    }

    /** `count` page writes that end before the end of the line or exactly there, to the pages `pages`. */
    ghost function Batch(io: IoType, pages: set<nat>, count: nat): Occupancy {
      var w := Pointer(io);
      var p := this.(on := Spread(on, w.line, pages), credits := credits - count * Bit(io.UserIo?));
      if w.next + count != perLine then p.At(io, WritePointer(w.line, w.next + count))
      else if free != [] then p.(free := free[1..]).At(io, WritePointer(free[0], 0))
      else p
    }

    ghost predicate Fits(io: IoType, count: nat) {
      || Pointer(io).next + count < perLine
      || (Pointer(io).next + count == perLine && count > 0 && free != [])
    }

    /** GC of line `v` that moves its pages in the order `xs`. */
    ghost function Collect(v: nat, xs: seq<nat>): Occupancy
      requires v < |on|
    {
      var p := this.(refill := perLine - |on[v]|).Puts(GcIo, xs);
      p.(free := p.free + [v])
    }
  }

  /** The logical pages on line `l`. */
  ghost function On(s: Ftl, l: nat): (p: set<nat>)
    ensures forall x :: x in p <==> x in Mapped(s) && s.maptbl[x].value.line == l
  {
    set x | x in Mapped(s) && s.maptbl[x].value.line == l
  }

  ghost function Occ(s: Ftl): (o: Occupancy)
    ensures |o.on| == |s.status| && forall l :: 0 <= l < |s.status| ==> o.on[l] == On(s, l)
  {
    Occupancy(s.perLine, seq(|s.status|, l requires 0 <= l => On(s, l)), s.freeLines, s.user, s.gc, s.credits, s.refill)
  }

  // ---------- lines ----------

  /** `vpc` counts the logical pages on a line. */
  lemma OnSize(s: Ftl, l: nat)
    requires Core(s, -1, {}, -1) && l < |s.status|
    ensures |s.vpc| == |s.status| && s.vpc[l] == |On(s, l)|
  {
    CountedLine(s, l);
    CountMapped(s, l, 0);
    CountMapped(s, l, s.perLine);
    OrdsInRange(s);
    hide Core, Mapped;
    var before, after := MappedBefore(s, l, 0), MappedBefore(s, l, s.perLine);
    assert before <= after && On(s, l) == after - before;
  }

  lemma OrdsInRange(s: Ftl)
    requires Core(s, -1, {}, -1)
    ensures forall x :: x in Mapped(s) ==> s.maptbl[x].value.ord < s.perLine
  {
    forall x | x in Mapped(s)
      ensures s.maptbl[x].value.ord < s.perLine
    {
      assert MapsBack(s, -1, {}, x);
    }
  }

  /** The victims are the closed lines that hold fewer pages than fit. */
  lemma VictimOcc(s: Ftl, l: nat)
    requires Core(s, -1, {}, -1) && l < |s.status|
    ensures l in s.victims <==> Occ(s).Victim(l)
  {
    OnSize(s, l);
    assert Places(s, -1, l) == 1 && LineOk(s, l);
    if l in s.victims {
      SelectCore(s, l);
    }
  }

  // ---------- page writes ----------

  lemma PutOcc(s: Ftl, io: IoType, lpn: nat, v: int)
    requires CanPut(s, io, lpn)
    ensures Occ(Put(s, io, lpn, v)).(credits := 0) == Occ(s).Put(io, lpn).(credits := 0)
    ensures Put(s, io, lpn, v).credits == s.credits
    ensures io.GcIo? ==> Occ(Put(s, io, lpn, v)) == Occ(s).Put(io, lpn)
  {
    var t := Put(s, io, lpn, v);
    PutTables(s, io, lpn, v);
    forall l | 0 <= l < |s.status|
      ensures On(t, l) == if l == Wp(s, io).line then On(s, l) + {lpn} else On(s, l) - {lpn}
    {
    }
    assert Occ(t).on == Occ(s).Put(io, lpn).on;
  }

  /** Unmapping a page leaves it in the table until the new page replaces it. */
  lemma HostWriteOcc(s: Ftl, lpn: nat, v: int)
    requires Core(s, -1, {}, -1) && lpn < |s.maptbl| && Room(s, UserIo) >= 2
    ensures Occ(HostWrite(s, lpn, v)) == Occ(s).Put(UserIo, lpn)
  {
    UnmapCore(s, lpn);
    HostWriteCore(s, lpn, v);
    var u := Unmap(s, lpn);
    assert u.freeLines == s.freeLines && u.user == s.user && u.gc == s.gc;
    hide Core, CanPut, FtlModel.Put, Unmap, Room, Space;
    PutOcc(u, UserIo, lpn, v);
    assert Occ(u).on == Occ(s).on;
  }

  // ---------- garbage collection ----------

  /** Every valid page of the line belongs to a logical page, which no other page belongs to. */
  ghost predicate Backed(s: Ftl, v: nat)
    requires Shape(s) && v < |s.status|
  {
    && (forall o :: 0 <= o < s.perLine && s.status[v][o] == Valid ==>
          s.rmap[v][o].Some? && s.rmap[v][o].value in On(s, v) && s.maptbl[s.rmap[v][o].value].value.ord == o)
    && (forall x :: x in On(s, v) ==>
          var o := s.maptbl[x].value.ord; o < s.perLine && s.status[v][o] == Valid && s.rmap[v][o] == Some(x))
  }

  /** The logical pages of the listed pages of line `v`, as far as those are valid. */
  ghost function Listed(s: Ftl, v: nat, order: seq<nat>): seq<nat>
    requires Shape(s) && v < |s.status| && Below(order, s.perLine) && Backed(s, v)
  {
    if order == [] then []
    else
      var k := |order| - 1;
      var o := order[k];
      Listed(s, v, order[..k]) + if s.status[v][o] == Valid then [s.rmap[v][o].value] else []
  }

  lemma SelectedBacked(s: Ftl, v: nat)
    requires Core(s, v, {}, -1) && v < |s.status|
    ensures Backed(s, v)
  {
    forall o | 0 <= o < s.perLine && s.status[v][o] == Valid
      ensures s.rmap[v][o].Some? && s.rmap[v][o].value in On(s, v) && s.maptbl[s.rmap[v][o].value].value.ord == o
    {
      assert Live(s, v, {}, v, o) && MappedBy(s, v, o);
    }
    forall x | x in On(s, v)
      ensures var o := s.maptbl[x].value.ord; o < s.perLine && s.status[v][o] == Valid && s.rmap[v][o] == Some(x)
    {
      assert MapsBack(s, v, {}, x);
    }
  }

  lemma {:induction false} ListedPages(s: Ftl, v: nat, order: seq<nat>)
    requires Shape(s) && v < |s.status| && Backed(s, v) && NoDup(order) && Below(order, s.perLine)
    ensures NoDup(Listed(s, v, order))
    ensures forall x :: x in Listed(s, v, order) <==> x in On(s, v) && s.maptbl[x].value.ord in order
  {
    if order != [] {
      var k := |order| - 1;
      assert order == order[..k] + [order[k]];
      ListedPages(s, v, order[..k]);
    }
  }

  lemma PutsNext(o: Occupancy, io: IoType, xs: seq<nat>, x: nat)
    ensures o.Puts(io, xs + [x]) == o.Puts(io, xs).Put(io, x)
    ensures o.Puts(io, []) == o
  {
    hide Occupancy.Put;
    assert (xs + [x])[..|xs|] == xs;
  }

  lemma ListedNext(s: Ftl, v: nat, order: seq<nat>)
    requires Shape(s) && v < |s.status| && Below(order, s.perLine) && Backed(s, v) && order != []
    ensures var k := |order| - 1;
      var rest, o := order[..k], order[k];
      && order == rest + [o] && Below(rest, s.perLine) && o < s.perLine
      && (s.status[v][o] == Valid ==> s.rmap[v][o].Some?)
      && Listed(s, v, order) == Listed(s, v, rest) + (if s.status[v][o] == Valid then [s.rmap[v][o].value] else [])
      && ValidIn(s.status[v], rest) <= ValidIn(s.status[v], order)
  {
  }

  lemma CopyNone(s: Ftl, v: nat)
    requires Shape(s) && Core(s, v, {}, -1) && v < |s.status| && Backed(s, v) && Room(s, GcIo) > ValidIn(s.status[v], [])
    ensures CopyAll(s, v, []) == s && Listed(s, v, []) == []
  {
    hide Lists, Lines, Maps, Room;
  }

  /** GC moves the pages of the victim one by one. */
  lemma {:induction false} CopyAllOcc(s: Ftl, v: nat, order: seq<nat>)
    requires Shape(s) && Core(s, v, {}, -1) && v < |s.status| && NoDup(order) && Below(order, s.perLine) && Backed(s, v)
    requires Room(s, GcIo) > ValidIn(s.status[v], order)
    ensures var c := CopyAll(s, v, order);
      && c.credits == s.credits
      && Occ(c) == Occ(s).Puts(GcIo, Listed(s, v, order))
  {
    hide Core, Shape, Backed, Room, ValidIn, Occ, Occupancy.Put, Occupancy.Puts, CopyAll, Listed;
    if order == [] {
      CopyNone(s, v);
      PutsNext(Occ(s), GcIo, [], 0);
    } else {
      var k := |order| - 1;
      var rest, o := order[..k], order[k];
      ListedNext(s, v, order);
      CopyAllOcc(s, v, rest);
      CopyStep(s, v, rest, o);
      var xs := Listed(s, v, rest);
      ListedStep(s, v, rest, o, xs);
    }
  }

  lemma ListedStep(s: Ftl, v: nat, rest: seq<nat>, o: nat, xs: seq<nat>)
    requires Shape(s) && v < |s.status| && o < s.perLine && (s.status[v][o] == Valid ==> s.rmap[v][o].Some?)
    ensures var b := Occ(s);
      b.Puts(GcIo, xs + (if s.status[v][o] == Valid then [s.rmap[v][o].value] else []))
      == if s.status[v][o] == Valid then b.Puts(GcIo, xs).Put(GcIo, s.rmap[v][o].value) else b.Puts(GcIo, xs)
  {
    hide Occ, Occupancy.Put, Occupancy.Puts;
    if s.status[v][o] == Valid {
      PutsNext(Occ(s), GcIo, xs, s.rmap[v][o].value);
    } else {
      assert xs + [] == xs;
    }
  }

  lemma CopyStep(s: Ftl, v: nat, rest: seq<nat>, o: nat)
    requires Shape(s) && Core(s, v, {}, -1) && v < |s.status| && Backed(s, v) && o < s.perLine
    requires NoDup(rest) && Below(rest, s.perLine) && NoDup(rest + [o]) && Below(rest + [o], s.perLine)
    requires Room(s, GcIo) > ValidIn(s.status[v], rest) && Room(s, GcIo) > ValidIn(s.status[v], rest + [o])
    ensures var m, c := CopyAll(s, v, rest), CopyAll(s, v, rest + [o]);
      && c.credits == m.credits
      && Occ(c) == if s.status[v][o] == Valid then Occ(m).Put(GcIo, s.rmap[v][o].value) else Occ(m)
  {
    hide Lists, Lines, Maps, Room, ValidIn, Occ, Occupancy.Put, FtlModel.Put, CanPut, CopyAll;
    CopyAllNext(s, v, rest, o);
    var m := CopyAll(s, v, rest);
    if s.status[v][o] == Valid {
      PutOcc(m, GcIo, s.rmap[v][o].value, s.data[v][o]);
    }
  }

  lemma {:induction false} PutsSizes(o: Occupancy, io: IoType, xs: seq<nat>)
    ensures var p := o.Puts(io, xs);
      && |p.on| == |o.on| && p.perLine == o.perLine && p.refill == o.refill
      && (io.GcIo? ==> p.credits == o.credits && p.user == o.user)
  {
    if xs != [] {
      PutsSizes(o, io, xs[..|xs| - 1]);
    }
  }

  /** Copying a selected line moves the pages on it in some order. */
  lemma CopiedOcc(sel: Ftl, v: nat, order: seq<nat>) returns (xs: seq<nat>)
    requires Shape(sel) && Core(sel, v, {}, -1) && v < |sel.status| && LineOk(sel, v)
    requires ScansLine(order, sel.perLine) && HasRoom(sel, v)
    ensures NoDup(order) && Below(order, sel.perLine) && Room(sel, GcIo) > ValidIn(sel.status[v], order)
    ensures NoDup(xs) && Elements(xs) == On(sel, v)
    ensures Occ(CopyAll(sel, v, order)) == Occ(sel).Puts(GcIo, xs)
  {
    hide Lists, Lines, LineOk, Maps, Occ, Occupancy.Put, Occupancy.Puts, Room, CopyAll;
    FullScanMovesVpc(sel, v, order);
    SelectedBacked(sel, v);
    ListedPages(sel, v, order);
    xs := Listed(sel, v, order);
    CopyAllOcc(sel, v, order);
    AllListed(sel, v, order, xs);
  }

  lemma GcIs(s: Ftl, v: nat, order: seq<nat>)
    requires Core(s, -1, {}, -1) && v in s.victims && ScansLine(order, s.perLine) && HasRoom(s, v)
    requires v < |s.ipc| && v < |s.status| && Core(Select(s, v), v, {}, -1)
    requires NoDup(order) && Below(order, s.perLine) && Room(Select(s, v), GcIo) > ValidIn(s.status[v], order)
    ensures Shape(CopyAll(Select(s, v), v, order)) && v < |CopyAll(Select(s, v), v, order).status|
    ensures Gc(s, v, order) == FreeLine(CopyAll(Select(s, v), v, order), v)
  {
    hide Lists, Lines, Maps, Room, CopyAll, FreeLine;
  }

  /** GC of a line moves the pages on it in some order and appends the line to the free list. */
  lemma GcOcc(s: Ftl, v: nat, order: seq<nat>) returns (xs: seq<nat>)
    requires Core(s, -1, {}, -1) && v in s.victims && ScansLine(order, s.perLine) && HasRoom(s, v)
    ensures v < |s.status| && NoDup(xs) && Elements(xs) == Occ(s).on[v]
    ensures Occ(Gc(s, v, order)) == Occ(s).Collect(v, xs)
  {
    hide Core, Shape, LineOk, Occ, Occupancy.Put, Occupancy.Puts, Room, Gc, CopyAll, FreeLine, ScansLine;
    SelectCore(s, v);
    SelectOcc(s, v);
    var sel := Select(s, v);
    xs := CopiedOcc(sel, v, order);
    GcIs(s, v, order);
    FreeOcc(CopyAll(sel, v, order), v);
  }

  lemma AllListed(s: Ftl, v: nat, order: seq<nat>, xs: seq<nat>)
    requires Shape(s) && v < |s.status| && Backed(s, v) && ScansLine(order, s.perLine)
    requires forall x :: x in xs <==> x in On(s, v) && s.maptbl[x].value.ord in order
    ensures Elements(xs) == On(s, v)
  {
    forall x | x in On(s, v)
      ensures x in xs
    {
      assert s.maptbl[x].value.ord in Elements(order);
    }
  }

  lemma SelectOcc(s: Ftl, v: nat)
    requires Core(s, -1, {}, -1) && v in s.victims
    ensures v < |s.status| && |s.ipc| == |s.status| && On(Select(s, v), v) == On(s, v)
    ensures v < |Occ(s).on| && Occ(s).on[v] == On(s, v)
    ensures Occ(Select(s, v)) == Occ(s).(refill := Occ(s).perLine - |On(s, v)|)
  {
    SelectCore(s, v);
    OnSize(s, v);
    var sel := Select(s, v);
    assert forall l :: On(sel, l) == On(s, l);
    assert Occ(sel).on == Occ(s).on;
  }

  lemma FreeOcc(c: Ftl, v: nat)
    requires Shape(c) && v < |c.status|
    ensures Occ(FreeLine(c, v)) == Occ(c).(free := c.freeLines + [v])
    ensures Occ(c).free == c.freeLines
  {
    var t := FreeLine(c, v);
    assert forall l :: On(t, l) == On(c, l);
    assert Occ(t).on == Occ(c).on;
  }
}
