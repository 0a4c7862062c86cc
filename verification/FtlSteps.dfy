/** What each step of the FTL keeps. */
module FtlSteps {
  import opened Wrappers
  import opened Counting
  import opened NandArray
  import opened FtlModel

  // ---------- invalidating a page ----------

  /** The facts behind the NVMEV_ASSERTs of `mark_page_invalid`: the page's line has a valid page
      to lose and room for an invalid one, a full line has no invalid page, and a line outside the
      heap that is not full is an open one. */
  lemma ValidPageCounters(s: Ftl, dangling: int, p: Page)
    requires Shape(s) && Lists(s, dangling) && Lines(s)
    requires InRange(s, p) && s.status[p.line][p.ord] == Valid
    ensures 0 <= s.ipc[p.line] < s.perLine
    ensures 0 < s.vpc[p.line] <= s.perLine
    ensures s.vpc[p.line] + s.ipc[p.line] <= s.perLine
    ensures s.vpc[p.line] == s.perLine ==> s.ipc[p.line] == 0
  {
    assert LineOk(s, p.line);
    CountPositive(s.status[p.line], 0, s.perLine, Valid, p.ord);
    CountDisjoint(s.status[p.line], 0, s.perLine, Valid, Invalid);
  }

  /** A line that is written to its end has no free page left in its counters. */
  lemma WrittenLineCounters(s: Ftl, l: nat)
    requires Shape(s) && l < |s.status| && LineOk(s, l) && Written(s, l) == s.perLine
    ensures s.vpc[l] + s.ipc[l] == s.perLine
  {
    CountBoth(s.status[l], 0, s.perLine, Valid, Invalid);
  }

  /** Exactly the lines with `vpc == pgs_per_line` sit on the full list; the test in
      `mark_page_invalid` relies on it. */
  lemma FullLines(s: Ftl, dangling: int, p: Page)
    requires Shape(s) && Lists(s, dangling) && Lines(s)
    requires InRange(s, p) && s.status[p.line][p.ord] == Valid && p.line != dangling
    ensures s.vpc[p.line] == s.perLine <==> p.line in s.fullLines
  {
    var l := p.line;
    assert LineOk(s, l) && Places(s, dangling, l) == 1;
    if s.vpc[l] == s.perLine {
      CountAll(s.status[l], 0, s.perLine, Valid);
      assert s.status[l][s.perLine - 1] == Valid;
      assert Written(s, l) == s.perLine;
      WrittenLineCounters(s, l);
    }
  }

  lemma InvalidateShape(s: Ftl, p: Page)
    requires Shape(s) && InRange(s, p)
    ensures Shape(Invalidate(s, p))
  {
  }

  lemma InvalidateLists(s: Ftl, dangling: int, p: Page)
    requires Shape(s) && Lists(s, dangling) && Lines(s)
    requires InRange(s, p) && s.status[p.line][p.ord] == Valid && p.line != dangling
    ensures Lists(Invalidate(s, p), dangling)
  {
    FullLines(s, dangling, p);
    WithoutElements(s.fullLines, p.line);
    var t := Invalidate(s, p);
    forall l | 0 <= l < |s.status|
      ensures Places(t, dangling, l) == 1
    {
      assert Places(s, dangling, l) == 1;
    }
  }

  lemma InvalidateLines(s: Ftl, dangling: int, p: Page)
    requires Shape(s) && Lists(s, dangling) && Lines(s)
    requires InRange(s, p) && s.status[p.line][p.ord] == Valid && p.line != dangling
    requires Shape(Invalidate(s, p))
    ensures Lines(Invalidate(s, p))
  {
    var t := Invalidate(s, p);
    FullLines(s, dangling, p);
    WithoutElements(s.fullLines, p.line);
    ValidPageCounters(s, dangling, p);
    CountUpdate(s.status[p.line], 0, s.perLine, Valid, p.ord, Invalid);
    CountUpdate(s.status[p.line], 0, s.perLine, Invalid, p.ord, Invalid);
    forall l | 0 <= l < |s.status|
      ensures LineOk(t, l)
    {
      assert LineOk(s, l);
      assert Written(t, l) == Written(s, l);
    }
  }

  lemma InvalidateMaps(s: Ftl, dangling: int, done: set<nat>, p: Page, lpn: nat)
    requires Shape(s) && Maps(s, dangling, done, -1)
    requires lpn < |s.maptbl| && s.maptbl[lpn] == Some(p) && InRange(s, p)
    requires Shape(Invalidate(s, p))
    ensures Maps(Invalidate(s, p), dangling, done, lpn)
    ensures !Live(Invalidate(s, p), dangling, done, p.line, p.ord)
  {
    var t := Invalidate(s, p);
    assert MapsBack(s, dangling, done, lpn);
    forall x | 0 <= x < |t.maptbl| && x != lpn
      ensures MapsBack(t, dangling, done, x)
    {
      assert MapsBack(s, dangling, done, x);
    }
    forall l, o | 0 <= l < |t.status| && 0 <= o < t.perLine && Live(t, dangling, done, l, o)
      ensures MappedBy(t, l, o)
    {
      assert Live(s, dangling, done, l, o) && MappedBy(s, l, o);
    }
  }

  // ---------- writing a page ----------

  ghost predicate CanPut(s: Ftl, io: IoType, lpn: nat) {
    && Shape(s) && lpn < |s.maptbl|
    && Wp(s, io).line < |s.status| && Wp(s, io).next < s.perLine
    && (Wp(s, io).next + 1 == s.perLine ==> s.freeLines != [])
  }

  /** The open line has a free page under the write pointer, and its counters have room for it. */
  lemma OpenLine(s: Ftl, dangling: int, io: IoType)
    requires Shape(s) && Lists(s, dangling) && Lines(s)
    ensures var WritePointer(l, o) := Wp(s, io);
      && l < |s.status| && o < s.perLine
      && s.status[l][o] == Free
      && l !in s.freeLines && l !in s.fullLines && l !in s.victims && l != dangling
      && Written(s, l) == o
      && 0 <= s.vpc[l] < s.perLine && 0 <= s.ipc[l]
      && s.vpc[l] + s.ipc[l] == o
  {
    var WritePointer(l, o) := Wp(s, io);
    assert Places(s, dangling, l) == 1 && LineOk(s, l);
    CountPrefix(s.status[l], o, s.perLine);
  }

  /** In a line written up to `o`, the valid and the invalid pages are its first `o`. */
  lemma {:induction false} CountPrefix(row: seq<PgStatus>, o: nat, n: nat)
    requires o <= n <= |row|
    requires forall k :: 0 <= k < n ==> (row[k] == Free <==> k >= o)
    ensures CountIn(row, 0, n, Valid) + CountIn(row, 0, n, Invalid) == o
  {
    if n > 0 {
      if o == n {
        CountPrefix(row, o - 1, n - 1);
      } else {
        CountPrefix(row, o, n - 1);
      }
    }
  }

  /** When the last page of a line is written, either all its pages are valid, or some are invalid. */
  lemma ClosedLineCounters(s: Ftl, dangling: int, io: IoType, lpn: nat, v: int)
    requires Shape(s) && Lists(s, dangling) && Lines(s) && CanPut(s, io, lpn)
    requires Wp(s, io).next + 1 == s.perLine
    ensures var t, l := Program(s, io, lpn, v), Wp(s, io).line;
      && (t.vpc[l] == s.perLine ==> t.ipc[l] == 0)
      && (t.vpc[l] != s.perLine ==> 0 <= t.vpc[l] < s.perLine && t.ipc[l] > 0)
  {
    OpenLine(s, dangling, io);
  }

  /** The facts that `mark_page_valid` and `advance_write_pointer` assert, between the steps of Put. */
  lemma BeforeAdvance(s: Ftl, dangling: int, io: IoType, lpn: nat, v: int)
    requires Shape(s) && Lists(s, dangling) && Lines(s) && CanPut(s, io, lpn)
    ensures var t, w := Program(s, io, lpn, v), Wp(s, io);
      && Shape(t) && t.perLine == s.perLine && |t.status| == |s.status| && |t.maptbl| == |s.maptbl|
      && Wp(t, io) == w && t.freeLines == s.freeLines && t.victims == s.victims
      && (w.next + 1 == s.perLine ==>
            && t.freeLines[0] < |s.status| && w.line !in t.victims
            && (t.vpc[w.line] == s.perLine ==> t.ipc[w.line] == 0)
            && (t.vpc[w.line] != s.perLine ==> 0 <= t.vpc[w.line] < s.perLine && t.ipc[w.line] > 0))
  {
    OpenLine(s, dangling, io);
    if Wp(s, io).next + 1 == s.perLine {
      ClosedLineCounters(s, dangling, io, lpn, v);
      assert s.freeLines[0] in s.freeLines;
    }
  }

  lemma PutShape(s: Ftl, io: IoType, lpn: nat, v: int)
    requires CanPut(s, io, lpn)
    ensures Shape(Put(s, io, lpn, v))
  {
  }

  /** A page write changes the entry of its logical page and the rows at the written page. */
  lemma PutTables(s: Ftl, io: IoType, lpn: nat, v: int)
    requires CanPut(s, io, lpn)
    ensures var t, p := Put(s, io, lpn, v), NewPage(s, io);
      && t.perLine == s.perLine
      && t.maptbl == s.maptbl[lpn := Some(p)]
      && t.rmap == s.rmap[p.line := s.rmap[p.line][p.ord := Some(lpn)]]
      && t.status == s.status[p.line := s.status[p.line][p.ord := Valid]]
      && t.data == s.data[p.line := s.data[p.line][p.ord := v]]
      && t.vpc == s.vpc[p.line := s.vpc[p.line] + 1]
      && t.ipc == s.ipc
  {
  }

  lemma FirstOut(list: seq<nat>)
    requires NoDup(list) && list != []
    ensures NoDup(list[1..])
    ensures list[0] in list && list[0] !in list[1..]
    ensures forall l :: l in list <==> l == list[0] || l in list[1..]
  {
    assert list == [list[0]] + list[1..];
  }

  lemma PutLists(s: Ftl, dangling: int, io: IoType, lpn: nat, v: int)
    requires Shape(s) && Lists(s, dangling) && Lines(s) && CanPut(s, io, lpn)
    ensures Lists(Put(s, io, lpn, v), dangling)
  {
    OpenLine(s, dangling, io);
    var t := Put(s, io, lpn, v);
    if Wp(s, io).next + 1 == s.perLine {
      FirstOut(s.freeLines);
      assert s.freeLines[0] < |s.status|;
    }
    forall l | 0 <= l < |s.status|
      ensures Places(t, dangling, l) == 1
    {
      PutPlaces(s, dangling, io, lpn, v, l);
    }
  }

  lemma PutPlaces(s: Ftl, dangling: int, io: IoType, lpn: nat, v: int, l: nat)
    requires Shape(s) && Lists(s, dangling) && Lines(s) && CanPut(s, io, lpn) && l < |s.status|
    ensures Places(Put(s, io, lpn, v), dangling, l) == 1
  {
    OpenLine(s, dangling, io);
    assert Places(s, dangling, l) == 1;
    if Wp(s, io).next + 1 == s.perLine {
      FirstOut(s.freeLines);
      assert Places(s, dangling, s.freeLines[0]) == 1;
    }
  }

  lemma PutWritten(s: Ftl, dangling: int, io: IoType, lpn: nat, v: int, l: nat)
    requires Shape(s) && Lists(s, dangling) && Lines(s) && CanPut(s, io, lpn) && l < |s.status|
    ensures Written(Put(s, io, lpn, v), l) == Written(s, l) + Bit(l == Wp(s, io).line)
  {
    OpenLine(s, dangling, io);
    assert Places(s, dangling, l) == 1;
    if Wp(s, io).next + 1 == s.perLine {
      FirstOut(s.freeLines);
      assert Places(s, dangling, s.freeLines[0]) == 1;
    }
  }

  lemma PutLines(s: Ftl, dangling: int, io: IoType, lpn: nat, v: int)
    requires Shape(s) && Lists(s, dangling) && Lines(s) && CanPut(s, io, lpn)
    requires Shape(Put(s, io, lpn, v))
    ensures Lines(Put(s, io, lpn, v))
  {
    var t := Put(s, io, lpn, v);
    var WritePointer(w, o) := Wp(s, io);
    OpenLine(s, dangling, io);
    CountUpdate(s.status[w], 0, s.perLine, Valid, o, Valid);
    CountUpdate(s.status[w], 0, s.perLine, Invalid, o, Valid);
    PutTables(s, io, lpn, v);
    forall l | 0 <= l < |s.status|
      ensures LineOk(t, l)
    {
      PutWritten(s, dangling, io, lpn, v, l);
      PutClasses(s, dangling, io, lpn, v, l);
      hide Put, CanPut, Lists, Shape, Written;
      assert LineOk(s, l);
    }
  }

  /** The lists and the heap still hold only lines of their kind. */
  lemma PutClasses(s: Ftl, dangling: int, io: IoType, lpn: nat, v: int, l: nat)
    requires Shape(s) && Lists(s, dangling) && Lines(s) && CanPut(s, io, lpn) && l < |s.status|
    ensures var t := Put(s, io, lpn, v);
      && (l in t.fullLines ==> t.vpc[l] == s.perLine)
      && (l in t.victims ==> t.ipc[l] > 0)
  {
    OpenLine(s, dangling, io);
    assert LineOk(s, l);
  }

  /** The new page becomes the only live page of `lpn`; all other pairs stay. */
  lemma PutMaps(s: Ftl, dangling: int, done: set<nat>, io: IoType, lpn: nat, v: int)
    requires Shape(s) && Lists(s, dangling) && Lines(s) && CanPut(s, io, lpn)
    requires Maps(s, dangling, done, lpn)
    requires s.maptbl[lpn].Some? ==>
      var p := s.maptbl[lpn].value; InRange(s, p) && !Live(s, dangling, done, p.line, p.ord)
    requires Shape(Put(s, io, lpn, v))
    ensures Maps(Put(s, io, lpn, v), dangling, done, -1)
  {
    OpenLine(s, dangling, io);
    PutTables(s, io, lpn, v);
    hide Put, Lists, Lines, LineOk, CanPut;
    var t := Put(s, io, lpn, v);
    TablesMap(s, t, dangling, done, lpn, NewPage(s, io));
  }

  lemma TablesMap(s: Ftl, t: Ftl, dangling: int, done: set<nat>, lpn: nat, p: Page)
    requires Shape(s) && Shape(t) && lpn < |s.maptbl| && InRange(s, p)
    requires Maps(s, dangling, done, lpn)
    requires s.maptbl[lpn].Some? ==>
      var q := s.maptbl[lpn].value; InRange(s, q) && !Live(s, dangling, done, q.line, q.ord)
    requires s.status[p.line][p.ord] == Free && p.line != dangling && t.perLine == s.perLine
    requires t.maptbl == s.maptbl[lpn := Some(p)]
    requires t.rmap == s.rmap[p.line := s.rmap[p.line][p.ord := Some(lpn)]]
    requires t.status == s.status[p.line := s.status[p.line][p.ord := Valid]]
    ensures Maps(t, dangling, done, -1)
  {
    forall x | 0 <= x < |t.maptbl|
      ensures MapsBack(t, dangling, done, x)
    {
      if x != lpn {
        assert MapsBack(s, dangling, done, x);
      }
    }
    forall l, k | 0 <= l < |t.status| && 0 <= k < t.perLine && Live(t, dangling, done, l, k)
      ensures MappedBy(t, l, k)
    {
      if l != p.line || k != p.ord {
        assert Live(s, dangling, done, l, k) && MappedBy(s, l, k);
      }
    }
  }

  /** Every page write uses up one page of space, and of the room of its write pointer. */
  lemma PutSpace(s: Ftl, io: IoType, lpn: nat, v: int)
    requires CanPut(s, io, lpn)
    ensures Space(Put(s, io, lpn, v)) == Space(s) - 1
    ensures Room(Put(s, io, lpn, v), io) == Room(s, io) - 1
  {
    if Wp(s, io).next + 1 == s.perLine {
      var n := |s.freeLines|;
      assert n * s.perLine == (n - 1) * s.perLine + s.perLine;
    }
  }

  /** A line that this write uses up finds a free successor, so `get_next_free_line` does not return NULL, if and
      only if the write pointer has room for a second page. */
  lemma RoomMeansFreeLine(s: Ftl, io: IoType)
    requires Wp(s, io).next < s.perLine
    ensures Room(s, io) >= 2 <==> (Wp(s, io).next + 1 == s.perLine ==> s.freeLines != [])
  {
    if s.freeLines == [] {
      assert |s.freeLines| * s.perLine == 0;
    } else {
      assert |s.freeLines| * s.perLine >= s.perLine;
    }
  }

  /** With more than two lines of space some line is free, and both write pointers have room for a line. */
  lemma SpaceMeansRoom(s: Ftl, io: IoType)
    requires s.user.next < s.perLine && s.gc.next < s.perLine && Space(s) >= 2 * s.perLine + 1
    ensures s.freeLines != [] && Room(s, io) > s.perLine
  {
    var k := |s.freeLines|;
    assert k == 0 ==> k * s.perLine == 0;
    assert k > 0 ==> k * s.perLine >= s.perLine;
  }

  lemma PutCore(s: Ftl, dangling: int, done: set<nat>, io: IoType, lpn: nat, v: int)
    requires Core(s, dangling, done, lpn) && lpn < |s.maptbl|
    requires s.maptbl[lpn].Some? ==>
      var p := s.maptbl[lpn].value; InRange(s, p) && !Live(s, dangling, done, p.line, p.ord)
    requires Room(s, io) >= 2
    ensures CanPut(s, io, lpn)
    ensures Core(Put(s, io, lpn, v), dangling, done, -1)
    ensures Space(Put(s, io, lpn, v)) == Space(s) - 1
    ensures Room(Put(s, io, lpn, v), io) == Room(s, io) - 1
  {
    RoomMeansFreeLine(s, io);
    PutShape(s, io, lpn, v);
    PutLists(s, dangling, io, lpn, v);
    PutLines(s, dangling, io, lpn, v);
    PutMaps(s, dangling, done, io, lpn, v);
    PutSpace(s, io, lpn, v);
  }

  /** A page write changes what one logical page reads, and nothing else. */
  lemma PutRead(s: Ftl, dangling: int, done: set<nat>, io: IoType, lpn: nat, v: int, x: nat)
    requires Core(s, dangling, done, lpn) && CanPut(s, io, lpn)
    requires x < |s.maptbl|
    ensures |Put(s, io, lpn, v).maptbl| == |s.maptbl|
    ensures Read(Put(s, io, lpn, v), x) == if x == lpn then Some(v) else Read(s, x)
    ensures x != lpn ==> Put(s, io, lpn, v).maptbl[x] == s.maptbl[x]
  {
    hide Lists, Lines, Put;
    OpenLine(s, dangling, io);
    PutTables(s, io, lpn, v);
    if x != lpn {
      assert MapsBack(s, dangling, done, x);
    }
  }
}
