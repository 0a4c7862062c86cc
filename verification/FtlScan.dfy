/** The GC loop nest of `do_gc` as a walk along its scan order. */
module FtlScan {
  import opened Wrappers
  import opened Arith
  import opened Counting
  import opened Geometry
  import opened NandArray
  import opened FtlModel
  import opened FtlSteps
  import opened FtlGc
  import opened FtlTie

  /** The loop nest scans every page of the line exactly once. */
  lemma ScanListScansLine(g: SsdParams)
    ensures ScansLine(ScanList(g), g.pgsPerLine)
    ensures |ScanList(g)| == g.pgsPerLine && Below(ScanList(g), g.pgsPerLine)
  {
    var order := ScanList(g);
    forall k | 0 <= k < |order|
      ensures order[k] < g.pgsPerLine
    {
      ScanOrdFacts(g, k);
    }
    forall j, k | 0 <= j < k < |order|
      ensures order[j] != order[k]
    {
      ScanOrdFacts(g, j);
      ScanOrdFacts(g, k);
      ScanOrderOnto(g, 0, j);
      ScanOrderOnto(g, 0, k);
    }
    forall o | o in Upto(g.pgsPerLine)
      ensures o in Elements(order)
    {
      WriteOrderOnto(g, 0, o);
      var p := PpaAt(g, 0, o);
      ScanOrderInverse(g, p);
      assert order[ScanOrder(g, p.ch, p.lun, p.pg)] == o;
    }
  }

  /** A selected victim, before any of its pages has been moved. */
  ghost predicate GcReady(g: SsdParams, sel: Ftl, v: nat) {
    && sel.perLine == g.pgsPerLine && |sel.status| == g.ttLines
    && Core(sel, v, {}, -1) && v < |sel.status| && HasRoom(sel, v)
  }

  lemma {:induction false} ValidInPrefix(row: seq<PgStatus>, order: seq<nat>, k: nat)
    requires Below(order, |row|) && k <= |order|
    ensures ValidIn(row, order[..k]) <= ValidIn(row, order)
  {
    if k < |order| {
      var rest := order[..|order| - 1];
      assert rest[..k] == order[..k];
      ValidInPrefix(row, rest, k);
    } else {
      assert order[..k] == order;
    }
  }

  /** A prefix of the scan order can be handled with the room there is. */
  lemma PrefixReady(order: seq<nat>, sel: Ftl, v: nat, k: nat)
    requires ScansLine(order, sel.perLine) && Below(order, sel.perLine) && k <= |order| == sel.perLine
    requires Shape(sel) && v < |sel.status| && LineOk(sel, v) && HasRoom(sel, v)
    ensures NoDup(order[..k]) && Below(order[..k], sel.perLine)
    ensures Room(sel, GcIo) > ValidIn(sel.status[v], order[..k])
  {
    FullScanMovesVpc(sel, v, order);
    ValidInPrefix(sel.status[v], order, k);
  }

  /** The state when the first `k` pages of the scan order have been handled. */
  ghost function CopyTo(g: SsdParams, sel: Ftl, v: nat, k: nat): Ftl
    requires GcReady(g, sel, v) && k <= g.pgsPerLine
  {
    ScanListScansLine(g);
    PrefixReady(ScanList(g), sel, v, k);
    CopyAll(sel, v, ScanList(g)[..k])
  }

  ghost function Scanned(g: SsdParams, k: nat): set<nat>
    requires k <= g.pgsPerLine
  {
    Elements(ScanList(g)[..k])
  }

  lemma CopyToFacts(g: SsdParams, sel: Ftl, v: nat, k: nat)
    requires GcReady(g, sel, v) && k <= g.pgsPerLine
    ensures Core(CopyTo(g, sel, v, k), v, Scanned(g, k), -1)
    ensures Moved(sel, CopyTo(g, sel, v, k), v)
    ensures k == 0 ==> CopyTo(g, sel, v, k) == sel
  {
    ScanListScansLine(g);
    PrefixReady(ScanList(g), sel, v, k);
  }

  /** Handling one more page. */
  lemma CopyToStep(g: SsdParams, sel: Ftl, v: nat, k: nat)
    requires GcReady(g, sel, v) && k < g.pgsPerLine
    ensures ScanOrd(g, k) < sel.perLine && ScanOrd(g, k) !in Scanned(g, k)
    ensures var m, n := CopyTo(g, sel, v, k), ScanOrd(g, k);
      && v < |m.status| && Shape(m) && m.perLine == sel.perLine
      && m.status[v] == sel.status[v] && m.status[v][n] != Free
      && (m.status[v][n] == Valid ==>
            m.rmap[v][n].Some? && CanPut(m, GcIo, m.rmap[v][n].value) && Room(m, GcIo) >= 2)
      && CopyTo(g, sel, v, k + 1) == CopyBack(m, v, n)
  {
    hide ScanOrd, ScansLine, CopyAll, CopyBack, CanPut, Core, LineOk, Room, HasRoom, ValidIn, Moved;
    ScanListScansLine(g);
    ClosedRow(sel, v);
    var order := ScanList(g);
    PrefixReady(order, sel, v, k);
    PrefixReady(order, sel, v, k + 1);
    CopyToFacts(g, sel, v, k);
    assert order[..k + 1] == order[..k] + [order[k]];
    CopyAllNext(sel, v, order[..k], order[k]);
  }

  /** A line that is being cleaned is neither open nor free, so it has no free page. */
  lemma ClosedRow(sel: Ftl, v: nat)
    requires Core(sel, v, {}, -1) && v < |sel.status|
    ensures Shape(sel) && LineOk(sel, v)
    ensures |sel.status[v]| == sel.perLine && forall o :: 0 <= o < sel.perLine ==> sel.status[v][o] != Free
  {
    assert LineOk(sel, v) && Places(sel, v, v) == 1;
  }

  /** Scanning one page more. */
  lemma CopyAllNext(s: Ftl, v: nat, order: seq<nat>, n: nat)
    requires Core(s, v, {}, -1) && v < |s.status|
    requires NoDup(order) && Below(order, s.perLine) && NoDup(order + [n]) && Below(order + [n], s.perLine)
    requires Room(s, GcIo) > ValidIn(s.status[v], order)
    requires Room(s, GcIo) > ValidIn(s.status[v], order + [n])
    ensures n < s.perLine && n !in Elements(order)
    ensures var m := CopyAll(s, v, order);
      && v < |m.status| && Shape(m) && m.perLine == s.perLine && m.status[v] == s.status[v]
      && (m.status[v][n] == Valid ==>
            m.rmap[v][n].Some? && CanPut(m, GcIo, m.rmap[v][n].value) && Room(m, GcIo) >= 2)
      && CopyAll(s, v, order + [n]) == CopyBack(m, v, n)
  {
    hide Lists, Lines, Maps, CanPut;
    var all := order + [n];
    assert all[|order|] == n && all[..|order|] == order;
    assert n !in order;
    var m := CopyAll(s, v, order);
    CopyBackCore(m, v, Elements(order), n);
  }

  /** The `k`-th scanned page of the victim holds no valid data. */
  ghost predicate NotLive(g: SsdParams, sel: Ftl, v: nat, k: nat)
    requires GcReady(g, sel, v)
  {
    ScanOrd(g, k) < sel.perLine && sel.status[v][ScanOrd(g, k)] != Valid
  }

  /** What `gc_write_page` needs to know about the page that is due. */
  lemma CopyOne(g: SsdParams, sel: Ftl, v: nat, k: nat)
    requires GcReady(g, sel, v) && k < g.pgsPerLine
    ensures ScanOrd(g, k) < sel.perLine && ScanOrd(g, k) !in Scanned(g, k)
    ensures var m, n := CopyTo(g, sel, v, k), ScanOrd(g, k);
      && Core(m, v, Scanned(g, k), -1) && v < |m.status| && m.perLine == sel.perLine
      && m.status[v] == sel.status[v]
      && (m.status[v][n] == Valid ==>
            m.rmap[v][n].Some? && CanPut(m, GcIo, m.rmap[v][n].value) && Room(m, GcIo) >= 2)
      && CopyTo(g, sel, v, k + 1) == CopyBack(m, v, n)
      && Shape(CopyTo(g, sel, v, k + 1))
    ensures NotLive(g, sel, v, k) ==> CopyTo(g, sel, v, k + 1) == CopyTo(g, sel, v, k)
  {
    CopyToFacts(g, sel, v, k);
    CopyToStep(g, sel, v, k);
    CopyToFacts(g, sel, v, k + 1);
  }

  /** Pages without live data change nothing. */
  lemma {:induction false} CopyNothing(g: SsdParams, sel: Ftl, v: nat, k: nat, j: nat)
    requires GcReady(g, sel, v) && k + j <= g.pgsPerLine
    requires forall i :: k <= i < k + j ==> NotLive(g, sel, v, i)
    ensures CopyTo(g, sel, v, k + j) == CopyTo(g, sel, v, k)
  {
    hide *;
    if j > 0 {
      CopyNothing(g, sel, v, k, j - 1);
      CopyOne(g, sel, v, k + j - 1);
    }
  }

  /** All pages handled: what remains of `do_gc` is to free the line. */
  lemma CopyToEnd(g: SsdParams, s: Ftl, v: nat)
    requires s.perLine == g.pgsPerLine && |s.status| == g.ttLines
    requires Core(s, -1, {}, -1) && v in s.victims && HasRoom(s, v)
    ensures v < |s.ipc| && GcReady(g, Select(s, v), v) && ScansLine(ScanList(g), s.perLine)
    ensures var c := CopyTo(g, Select(s, v), v, g.pgsPerLine);
      Shape(c) && v < |c.status| && Gc(s, v, ScanList(g)) == FreeLine(c, v)
  {
    SelectCore(s, v);
    ScanListScansLine(g);
    assert Room(Select(s, v), GcIo) == Room(s, GcIo);
    assert ScanList(g)[..g.pgsPerLine] == ScanList(g);
    CopyToFacts(g, Select(s, v), v, g.pgsPerLine);
  }

  /** Where the scan order stands when the loops are at (flashpg, ch, lun). */
  function ScanBase(g: SsdParams, flashpg: nat, ch: nat, lun: nat): nat {
    MulAdd(MulAdd(MulAdd(flashpg, g.nchs, ch), g.lunsPerCh, lun), g.pgsPerFlashpg, 0)
  }

  /** The pages of one flash page are consecutive in scan order. */
  lemma ScanStretch(g: SsdParams, v: nat, flashpg: nat, ch: nat, lun: nat, i: nat)
    requires v < g.ttLines && flashpg < g.flashpgsPerBlk && ch < g.nchs && lun < g.lunsPerCh
    requires i < g.pgsPerFlashpg
    ensures var k := ScanBase(g, flashpg, ch, lun) + i;
      && k < g.pgsPerLine && ScanBase(g, flashpg, ch, lun) + g.pgsPerFlashpg <= g.pgsPerLine
      && PpaAt(g, v, ScanOrd(g, k)) == Ppa(ch, lun, 0, v, MulAdd(flashpg, g.pgsPerFlashpg, i))
      && ValidPpa(g, PpaAt(g, v, ScanOrd(g, k)))
  {
    var base := ScanBase(g, flashpg, ch, lun);
    StretchAt(g, v, flashpg, ch, lun, i);
    StretchAt(g, v, flashpg, ch, lun, g.pgsPerFlashpg - 1);
    ScanOrdFacts(g, base + i);
  }

  lemma StretchAt(g: SsdParams, v: nat, flashpg: nat, ch: nat, lun: nat, i: nat)
    requires v < g.ttLines && flashpg < g.flashpgsPerBlk && ch < g.nchs && lun < g.lunsPerCh
    requires i < g.pgsPerFlashpg
    ensures var p := Ppa(ch, lun, 0, v, MulAdd(flashpg, g.pgsPerFlashpg, i));
      && ValidPpa(g, p)
      && ScanOrder(g, ch, lun, p.pg) == ScanBase(g, flashpg, ch, lun) + i
      && ScanBase(g, flashpg, ch, lun) + i < g.pgsPerLine
      && ScanPpa(g, v, ScanBase(g, flashpg, ch, lun) + i) == p
  {
    DigitsBounded(flashpg, i, g.flashpgsPerBlk, g.pgsPerFlashpg);
    DigitsUnique(flashpg, i, g.pgsPerFlashpg);
    ScanOrderInverse(g, Ppa(ch, lun, 0, v, MulAdd(flashpg, g.pgsPerFlashpg, i)));
  }

  /** The loops hand over to each other: the end of one inner loop is the beginning of the next
      round of the outer one. */
  lemma ScanCarry(g: SsdParams, flashpg: nat, ch: nat, lun: nat)
    ensures ScanBase(g, flashpg, ch, lun) + g.pgsPerFlashpg == ScanBase(g, flashpg, ch, lun + 1)
    ensures ScanBase(g, flashpg, ch, g.lunsPerCh) == ScanBase(g, flashpg, ch + 1, 0)
    ensures ScanBase(g, flashpg, g.nchs, 0) == ScanBase(g, flashpg + 1, 0, 0)
    ensures ScanBase(g, 0, 0, 0) == 0
    ensures ScanBase(g, g.flashpgsPerBlk, 0, 0) == g.pgsPerLine
  {
    var a := MulAdd(flashpg, g.nchs, ch);
    Distribute(MulAdd(a, g.lunsPerCh, lun), 1, g.pgsPerFlashpg);
    Distribute(a, 1, g.lunsPerCh);
    Distribute(flashpg, 1, g.nchs);
    LineSize(g);
  }
}
