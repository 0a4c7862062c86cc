/** Garbage collection: `do_gc` moves the live pages of a victim line in scan order and frees the line. */
module FtlGc {
  import opened Wrappers
  import opened Counting
  import opened NandArray
  import opened FtlModel
  import opened FtlSteps

  /** A line that `select_victim_line` may pick: one with the fewest valid pages. */
  ghost predicate IsVictim(s: Ftl, v: nat) {
    && v in s.victims && v < |s.vpc|
    && forall u :: u in s.victims && u < |s.vpc| ==> s.vpc[v] <= s.vpc[u]
  }

  /** `select_victim_line`, and the refill amount that `do_gc` notes down. */
  ghost function Select(s: Ftl, v: nat): Ftl
    requires v < |s.ipc|
  {
    s.(victims := s.victims - {v}, refill := s.ipc[v])
  }

  /** `gc_write_page` for page `n` of the victim, if it is valid. */
  ghost function CopyBack(s: Ftl, v: nat, n: nat): Ftl
    requires Shape(s) && v < |s.status| && n < s.perLine
    requires s.status[v][n] == Valid ==> s.rmap[v][n].Some? && CanPut(s, GcIo, s.rmap[v][n].value)
  {
    if s.status[v][n] == Valid then Put(s, GcIo, s.rmap[v][n].value, s.data[v][n]) else s
  }

  /** `mark_block_free` on every block of the line, then `mark_line_free`. */
  ghost function FreeLine(s: Ftl, v: nat): (t: Ftl)
    requires Shape(s) && v < |s.status|
  {
    s.(status := s.status[v := seq(s.perLine, _ => Free)],
       vpc := s.vpc[v := 0],
       ipc := s.ipc[v := 0],
       freeLines := s.freeLines + [v])
  }

  // ---------- one step ----------

  lemma SelectCore(s: Ftl, v: nat)
    requires Core(s, -1, {}, -1) && v in s.victims
    ensures v < |s.status| && Core(Select(s, v), v, {}, -1)
    ensures s.ipc[v] > 0 && s.vpc[v] + s.ipc[v] == s.perLine && s.vpc[v] >= 0
    ensures Shape(Select(s, v)) && LineOk(Select(s, v), v)
    ensures Space(Select(s, v)) == Space(s) && Room(Select(s, v), GcIo) == Room(s, GcIo)
  {
    var t := Select(s, v);
    assert LineOk(s, v) && Places(s, -1, v) == 1;
    WrittenLineCounters(s, v);
    forall l | 0 <= l < |s.status|
      ensures Places(t, v, l) == 1 && LineOk(t, l)
    {
      assert Places(s, -1, l) == 1 && LineOk(s, l);
    }
    SelectMaps(s, v);
  }

  lemma SelectMaps(s: Ftl, v: nat)
    requires Shape(s) && Maps(s, -1, {}, -1) && v < |s.status|
    ensures Maps(Select(s, v), v, {}, -1)
  {
    var t := Select(s, v);
    forall x | 0 <= x < |t.maptbl|
      ensures MapsBack(t, v, {}, x)
    {
      assert MapsBack(s, -1, {}, x);
    }
    forall l, o | 0 <= l < |t.status| && 0 <= o < t.perLine && Live(t, v, {}, l, o)
      ensures MappedBy(t, l, o)
    {
      assert Live(s, -1, {}, l, o) && MappedBy(s, l, o);
    }
  }

  /** Scanning a page that holds no live data takes it out of consideration. */
  lemma ScanDead(s: Ftl, v: nat, done: set<nat>, n: nat)
    requires Core(s, v, done, -1) && v < |s.status| && n < s.perLine
    requires s.status[v][n] != Valid
    ensures Core(s, v, done + {n}, -1)
  {
    forall x | 0 <= x < |s.maptbl|
      ensures MapsBack(s, v, done + {n}, x)
    {
      assert MapsBack(s, v, done, x);
    }
    forall l, o | 0 <= l < |s.status| && 0 <= o < s.perLine && Live(s, v, done + {n}, l, o)
      ensures MappedBy(s, l, o)
    {
      assert Live(s, v, done, l, o);
    }
  }

  /** Scanning a live page leaves its logical page without a live physical one for the moment. */
  lemma ScanLive(s: Ftl, v: nat, done: set<nat>, n: nat)
    requires Core(s, v, done, -1) && v < |s.status| && n < s.perLine
    requires s.status[v][n] == Valid && n !in done
    ensures s.rmap[v][n].Some? && s.rmap[v][n].value < |s.maptbl|
    ensures s.maptbl[s.rmap[v][n].value] == Some(Page(v, n))
    ensures Core(s, v, done + {n}, s.rmap[v][n].value)
    ensures !Live(s, v, done + {n}, v, n)
  {
    assert Live(s, v, done, v, n) && MappedBy(s, v, n);
    var lpn := s.rmap[v][n].value;
    forall x | 0 <= x < |s.maptbl| && x != lpn
      ensures MapsBack(s, v, done + {n}, x)
    {
      assert MapsBack(s, v, done, x);
    }
    forall l, o | 0 <= l < |s.status| && 0 <= o < s.perLine && Live(s, v, done + {n}, l, o)
      ensures MappedBy(s, l, o)
    {
      assert Live(s, v, done, l, o);
    }
  }

  /** What moving one page leaves alone: the victim's own rows and the credits; every other
      logical page keeps its physical page, and every logical page reads the same. */
  ghost predicate Moved(s: Ftl, t: Ftl, v: nat)
    requires v < |s.status|
  {
    && |t.maptbl| == |s.maptbl| && |t.status| == |s.status| && t.perLine == s.perLine
    && |t.vpc| == |s.vpc| && |t.ipc| == |s.ipc| && |t.rmap| == |s.rmap| && |t.data| == |s.data|
    && |s.vpc| == |s.ipc| == |s.rmap| == |s.data| == |s.status|
    && t.status[v] == s.status[v] && t.rmap[v] == s.rmap[v] && t.data[v] == s.data[v]
    && t.vpc[v] == s.vpc[v] && t.ipc[v] == s.ipc[v]
    && t.credits == s.credits && t.refill == s.refill
    && (forall x :: 0 <= x < |s.maptbl| ==> MovedEntry(s, t, v, x))
  }

  ghost predicate MovedEntry(s: Ftl, t: Ftl, v: nat, x: nat)
    requires |t.maptbl| == |s.maptbl| && x < |s.maptbl|
  {
    && Read(t, x) == Read(s, x)
    && (s.maptbl[x].Some? <==> t.maptbl[x].Some?)
    && (s.maptbl[x].Some? && s.maptbl[x].value.line != v ==> t.maptbl[x] == s.maptbl[x])
  }

  lemma MovedTransitive(s: Ftl, t: Ftl, u: Ftl, v: nat)
    requires v < |s.status| && Moved(s, t, v) && Moved(t, u, v)
    ensures Moved(s, u, v)
  {
    forall x | 0 <= x < |s.maptbl|
      ensures MovedEntry(s, u, v, x)
    {
      assert MovedEntry(s, t, v, x) && MovedEntry(t, u, v, x);
    }
  }

  lemma CopyBackCore(s: Ftl, v: nat, done: set<nat>, n: nat)
    requires Core(s, v, done, -1) && v < |s.status| && n < s.perLine && n !in done
    requires s.status[v][n] == Valid ==> Room(s, GcIo) >= 2
    ensures s.status[v][n] == Valid ==> s.rmap[v][n].Some? && CanPut(s, GcIo, s.rmap[v][n].value)
    ensures Core(CopyBack(s, v, n), v, done + {n}, -1)
    ensures Space(CopyBack(s, v, n)) == Space(s) - Bit(s.status[v][n] == Valid)
    ensures Room(CopyBack(s, v, n), GcIo) == Room(s, GcIo) - Bit(s.status[v][n] == Valid)
    ensures Moved(s, CopyBack(s, v, n), v)
  {
    if s.status[v][n] == Valid {
      ScanLive(s, v, done, n);
      var lpn := s.rmap[v][n].value;
      PutCore(s, v, done + {n}, GcIo, lpn, s.data[v][n]);
      OpenLine(s, v, GcIo);
      CopyBackMoved(s, v, done + {n}, n);
    } else {
      ScanDead(s, v, done, n);
    }
  }

  lemma CopyBackMoved(s: Ftl, v: nat, done: set<nat>, n: nat)
    requires v < |s.status| && n < s.perLine && Shape(s) && s.status[v][n] == Valid
    requires s.rmap[v][n].Some? && s.rmap[v][n].value < |s.maptbl|
    requires s.maptbl[s.rmap[v][n].value] == Some(Page(v, n))
    requires Core(s, v, done, s.rmap[v][n].value) && CanPut(s, GcIo, s.rmap[v][n].value)
    requires s.gc.line != v
    ensures Moved(s, CopyBack(s, v, n), v)
  {
    var lpn := s.rmap[v][n].value;
    var t := Put(s, GcIo, lpn, s.data[v][n]);
    forall x | 0 <= x < |s.maptbl|
      ensures MovedEntry(s, t, v, x)
    {
      PutRead(s, v, done, GcIo, lpn, s.data[v][n], x);
    }
  }

  // ---------- the whole line ----------

  predicate Below(order: seq<nat>, n: nat) {
    forall k :: 0 <= k < |order| ==> order[k] < n
  }

  /** How many of the listed pages of a row are valid. */
  ghost function ValidIn(row: seq<PgStatus>, order: seq<nat>): nat
    requires Below(order, |row|)
  {
    if order == [] then 0
    else
      var k := |order| - 1;
      ValidIn(row, order[..k]) + Bit(row[order[k]] == Valid)
  }

  /** GC after scanning the listed pages of the victim. */
  ghost function CopyAll(s: Ftl, v: nat, order: seq<nat>): (t: Ftl)
    requires Core(s, v, {}, -1) && v < |s.status|
    requires NoDup(order) && Below(order, s.perLine)
    requires Room(s, GcIo) > ValidIn(s.status[v], order)
    ensures Core(t, v, Elements(order), -1)
    ensures Moved(s, t, v)
    ensures Space(t) == Space(s) - ValidIn(s.status[v], order)
    ensures Room(t, GcIo) == Room(s, GcIo) - ValidIn(s.status[v], order)
  {
    if order == [] then
      assert Elements(order) == {};
      s
    else
      var k := |order| - 1;
      assert order == order[..k] + [order[k]];
      var m := CopyAll(s, v, order[..k]);
      assert Elements(order) == Elements(order[..k]) + {order[k]};
      CopyBackCore(m, v, Elements(order[..k]), order[k]);
      MovedTransitive(s, m, CopyBack(m, v, order[k]), v);
      CopyBack(m, v, order[k])
  }

  /** The order in which the pages of a line are scanned: each page once. */
  ghost predicate ScansLine(order: seq<nat>, n: nat) {
    NoDup(order) && Elements(order) == Upto(n)
  }

  ghost function ValidSet(row: seq<PgStatus>, n: nat): (v: set<nat>)
    requires n <= |row|
    ensures forall o :: o in v <==> 0 <= o < n && row[o] == Valid
  {
    set o | o in Upto(n) && row[o] == Valid
  }

  lemma {:induction false} ValidSetSize(row: seq<PgStatus>, n: nat)
    requires n <= |row|
    ensures |ValidSet(row, n)| == CountIn(row, 0, n, Valid)
  {
    if n == 0 {
      assert ValidSet(row, n) == {};
    } else {
      ValidSetSize(row, n - 1);
      if row[n - 1] == Valid {
        assert ValidSet(row, n) == ValidSet(row, n - 1) + {n - 1};
      } else {
        assert ValidSet(row, n) == ValidSet(row, n - 1);
      }
    }
  }

  ghost function ValidOf(row: seq<PgStatus>, order: seq<nat>): (v: set<nat>)
    requires Below(order, |row|)
    ensures forall o :: o in v <==> o in order && o < |row| && row[o] == Valid
  {
    set o | o in order && o < |row| && row[o] == Valid
  }

  lemma {:induction false} ValidInSize(row: seq<PgStatus>, order: seq<nat>)
    requires NoDup(order) && Below(order, |row|)
    ensures ValidIn(row, order) == |ValidOf(row, order)|
  {
    if order == [] {
      assert ValidOf(row, order) == {};
    } else {
      var k := |order| - 1;
      var rest, o := order[..k], order[k];
      assert order == rest + [o];
      ValidInSize(row, rest);
      assert o !in rest;
      if row[o] == Valid {
        assert ValidOf(row, order) == ValidOf(row, rest) + {o};
      } else {
        assert ValidOf(row, order) == ValidOf(row, rest);
      }
    }
  }

  /** A full scan moves exactly `vpc` pages. */
  lemma FullScanMovesVpc(s: Ftl, v: nat, order: seq<nat>)
    requires Shape(s) && v < |s.status| && LineOk(s, v) && ScansLine(order, s.perLine)
    ensures Below(order, s.perLine)
    ensures ValidIn(s.status[v], order) == s.vpc[v]
  {
    assert forall k :: 0 <= k < |order| ==> order[k] in Elements(order);
    ValidInSize(s.status[v], order);
    ValidSetSize(s.status[v], s.perLine);
    assert ValidOf(s.status[v], order) == ValidSet(s.status[v], s.perLine) by {
      forall o
        ensures o in order <==> o in Upto(s.perLine)
      {
        assert o in order <==> o in Elements(order);
      }
    }
  }

  lemma FreeLineCore(s: Ftl, v: nat)
    requires Core(s, v, Upto(s.perLine), -1) && v < |s.status|
    ensures Core(FreeLine(s, v), -1, {}, -1)
    ensures Space(FreeLine(s, v)) == Space(s) + s.perLine
    ensures forall x :: 0 <= x < |s.maptbl| && s.maptbl[x].Some? ==> s.maptbl[x].value.line != v
  {
    var t := FreeLine(s, v);
    assert Places(s, v, v) == 1;
    assert (|s.freeLines| + 1) * s.perLine == |s.freeLines| * s.perLine + s.perLine;
    CountNone(t.status[v], 0, s.perLine, Valid);
    CountNone(t.status[v], 0, s.perLine, Invalid);
    forall l | 0 <= l < |s.status|
      ensures Places(t, -1, l) == 1 && LineOk(t, l)
    {
      assert Places(s, v, l) == 1 && LineOk(s, l);
      assert Written(t, l) == if l == v then 0 else Written(s, l);
    }
    FreeLineMaps(s, v);
  }

  lemma FreeLineMaps(s: Ftl, v: nat)
    requires Shape(s) && Maps(s, v, Upto(s.perLine), -1) && v < |s.status|
    ensures Shape(FreeLine(s, v))
    ensures Maps(FreeLine(s, v), -1, {}, -1)
    ensures forall x :: 0 <= x < |s.maptbl| && s.maptbl[x].Some? ==> s.maptbl[x].value.line != v
  {
    var t := FreeLine(s, v);
    forall x | 0 <= x < |s.maptbl|
      ensures MapsBack(t, -1, {}, x)
      ensures s.maptbl[x].Some? ==> s.maptbl[x].value.line != v
    {
      assert MapsBack(s, v, Upto(s.perLine), x);
    }
    forall l, o | 0 <= l < |t.status| && 0 <= o < t.perLine && Live(t, -1, {}, l, o)
      ensures MappedBy(t, l, o)
    {
      assert Live(s, v, Upto(s.perLine), l, o) && MappedBy(s, l, o);
    }
  }

  /** The entry of a logical page after GC of line `v`: a page in `v` has moved out of it, any other
      page has stayed, and the contents are the same. */
  ghost predicate Relocated(s: Ftl, t: Ftl, v: nat, x: nat)
    requires |t.maptbl| == |s.maptbl| && x < |s.maptbl|
  {
    && Read(t, x) == Read(s, x)
    && (s.maptbl[x].Some? <==> t.maptbl[x].Some?)
    && (s.maptbl[x].Some? ==>
          if s.maptbl[x].value.line == v then t.maptbl[x].value.line != v else t.maptbl[x] == s.maptbl[x])
  }

  /** The GC write pointer has room for the valid pages of line `v` and one more. */
  ghost predicate HasRoom(s: Ftl, v: nat) {
    v < |s.vpc| && Room(s, GcIo) > s.vpc[v]
  }

  /** `do_gc` on victim `v`. Without the room a copied page would use up a line that has no free successor. */
  ghost function Gc(s: Ftl, v: nat, order: seq<nat>): (t: Ftl)
    requires Core(s, -1, {}, -1) && v in s.victims
    requires ScansLine(order, s.perLine)
    requires HasRoom(s, v)
    ensures Core(t, -1, {}, -1)
    ensures v < |s.status| && s.ipc[v] > 0
    ensures Space(t) == Space(s) + s.ipc[v]
    ensures t.refill == s.ipc[v] && t.credits == s.credits && s.ipc[v] <= s.perLine == t.perLine
    ensures |t.status| == |s.status| && |t.maptbl| == |s.maptbl|
    ensures forall x :: 0 <= x < |s.maptbl| ==> Relocated(s, t, v, x)
    ensures v in t.freeLines && forall o :: 0 <= o < t.perLine ==> t.status[v][o] == Free
  {
    hide Lists, Lines, LineOk, Maps, Space, Room;
    SelectCore(s, v);
    var sel := Select(s, v);
    FullScanMovesVpc(sel, v, order);
    var copied := CopyAll(sel, v, order);
    FreeLineCore(copied, v);
    var t := FreeLine(copied, v);
    assert forall x :: 0 <= x < |s.maptbl| ==> Relocated(s, t, v, x) by {
      GcRelocates(s, sel, copied, v);
    }
    t
  }

  lemma GcRelocates(s: Ftl, sel: Ftl, copied: Ftl, v: nat)
    requires Core(s, -1, {}, -1) && v < |s.status| && sel == Select(s, v) && Moved(sel, copied, v)
    requires Shape(copied)
    requires forall x :: 0 <= x < |copied.maptbl| && copied.maptbl[x].Some? ==> copied.maptbl[x].value.line != v
    ensures forall x :: 0 <= x < |s.maptbl| ==> Relocated(s, FreeLine(copied, v), v, x)
  {
    var t := FreeLine(copied, v);
    forall x | 0 <= x < |s.maptbl|
      ensures Relocated(s, t, v, x)
    {
      assert MovedEntry(sel, copied, v, x);
      assert Read(sel, x) == Read(s, x) && Read(t, x) == Read(copied, x);
    }
  }
}
