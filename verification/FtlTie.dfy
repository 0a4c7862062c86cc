/** How the arrays of conv_ftl.c represent the tables of FtlModel. */
module FtlTie {
  import opened Wrappers
  import opened Arith
  import opened Counting
  import opened Geometry
  import opened NandArray
  import opened FtlModel
  import opened FtlRuns

  /** The address of a page in the model; None is UNMAPPED_PPA. */
  function ToPpa(g: SsdParams, p: Option<Page>): Ppa
  {
    match p
    case None => Unmapped
    case Some(p) => PpaAt(g, p.line, p.ord)
  }

  /** The index of page `o` of line `l`. */
  function IdxAt(g: SsdParams, l: nat, o: nat): nat
  {
    PgIdx(g, PpaAt(g, l, o))
  }

  lemma IdxAtUnique(g: SsdParams, l: nat, o: nat, l': nat, o': nat)
    requires l < g.ttLines && l' < g.ttLines && o < g.pgsPerLine && o' < g.pgsPerLine
    ensures IdxAt(g, l, o) < g.ttPgs
    ensures IdxAt(g, l, o) == IdxAt(g, l', o') ==> l == l' && o == o'
  {
    WriteOrderOnto(g, l, o);
    WriteOrderOnto(g, l', o');
    PgIdxInverse(g, PpaAt(g, l, o));
    PgIdxInverse(g, PpaAt(g, l', o'));
  }

  /** During GC the victim's blocks are erased one after the other, in the order of their dies. */
  ghost predicate Erased(g: SsdParams, o: nat, dies: nat)
  {
    var p := PpaAt(g, 0, o);
    MulAdd(p.ch, g.lunsPerCh, p.lun) < dies
  }

  /** Page `o` of line `l` is stored as the model says; blocks of `dangling` on the first `dies` dies
      have already been erased. */
  ghost predicate PageTied(g: SsdParams, status: seq<PgStatus>, rmap: seq<Option<nat>>, s: Ftl, dangling: int, dies: nat,
                           l: nat, o: nat)
    requires Shape(s) && l < |s.status| && o < s.perLine
  {
    var i := IdxAt(g, l, o);
    && i < |status| && i < |rmap|
    && rmap[i] == s.rmap[l][o]
    && status[i] == if l == dangling && Erased(g, o, dies) then Free else s.status[l][o]
  }

  ghost predicate PagesTied(g: SsdParams, status: seq<PgStatus>, rmap: seq<Option<nat>>, s: Ftl, dangling: int, dies: nat)
    requires Shape(s)
  {
    && |s.status| == g.ttLines && s.perLine == g.pgsPerLine && |status| == g.ttPgs && |rmap| == g.ttPgs
    && forall l, o :: 0 <= l < |s.status| && 0 <= o < s.perLine ==>
         PageTied(g, status, rmap, s, dangling, dies, l, o)
  }

  ghost predicate MapTied(g: SsdParams, maptbl: seq<Ppa>, m: seq<Option<Page>>)
  {
    && |maptbl| == |m|
    && forall x :: 0 <= x < |m| ==> maptbl[x] == ToPpa(g, m[x])
  }

  /** `ppa` is the address of page `ord` of a line. The bound variable keeps the address from being computed
      where it is not asked for. */
  ghost predicate Names(g: SsdParams, ppa: Ppa, line: nat, ord: nat)
  {
    forall o: nat :: ord <= o <= ord ==> ppa == PpaAt(g, line, o)
  }

  /** `struct write_pointer` */
  datatype WritePtr = WritePtr(curline: nat, ch: nat, lun: nat, pg: nat, blk: nat, pl: nat)

  ghost predicate WpTied(g: SsdParams, wp: WritePtr, m: WritePointer)
  {
    && wp.curline == m.line && wp.blk == m.line && wp.pl == 0
    && Names(g, Ppa(wp.ch, wp.lun, 0, wp.blk, wp.pg), m.line, m.next)
  }

  // ---------- single updates ----------

  /** The page that an address names: a valid address in the block of its line, with the status of the page. */
  lemma NamedPage(g: SsdParams, status: seq<PgStatus>, rmap: seq<Option<nat>>, s: Ftl, dangling: int, dies: nat,
                  ppa: Ppa, p: Page)
    requires Shape(s) && PagesTied(g, status, rmap, s, dangling, dies) && |s.status| == g.ttLines && s.perLine == g.pgsPerLine
    requires InRange(s, p) && p.line != dangling && Names(g, ppa, p.line, p.ord)
    ensures ValidPpa(g, ppa) && ppa.blk == p.line
    ensures IdxAt(g, p.line, p.ord) == PgIdx(g, ppa) < |status|
    ensures status[PgIdx(g, ppa)] == s.status[p.line][p.ord]
  {
    WriteOrderOnto(g, p.line, p.ord);
    assert ppa == PpaAt(g, p.line, p.ord);
    assert PageTied(g, status, rmap, s, dangling, dies, p.line, p.ord);
  }

  /** Writing one status. */
  lemma StatusTied(g: SsdParams, status: seq<PgStatus>, rmap: seq<Option<nat>>, s: Ftl, dangling: int, dies: nat,
                   p: Page, x: PgStatus, t: Ftl)
    requires Shape(s) && Shape(t) && PagesTied(g, status, rmap, s, dangling, dies)
    requires InRange(s, p) && p.line != dangling
    requires t.perLine == s.perLine && t.rmap == s.rmap
    requires t.status == s.status[p.line := s.status[p.line][p.ord := x]]
    ensures IdxAt(g, p.line, p.ord) < |status|
    ensures PagesTied(g, status[IdxAt(g, p.line, p.ord) := x], rmap, t, dangling, dies)
  {
    IdxAtUnique(g, p.line, p.ord, p.line, p.ord);
    var status' := status[IdxAt(g, p.line, p.ord) := x];
    forall l, o | 0 <= l < |t.status| && 0 <= o < t.perLine
      ensures PageTied(g, status', rmap, t, dangling, dies, l, o)
    {
      assert PageTied(g, status, rmap, s, dangling, dies, l, o);
      IdxAtUnique(g, p.line, p.ord, l, o);
      hide IdxAt, Erased;
    }
  }

  /** Writing one entry of the reverse map. */
  lemma RmapTied(g: SsdParams, status: seq<PgStatus>, rmap: seq<Option<nat>>, s: Ftl, dangling: int, dies: nat,
                 p: Page, x: Option<nat>)
    requires Shape(s) && PagesTied(g, status, rmap, s, dangling, dies) && InRange(s, p)
    ensures IdxAt(g, p.line, p.ord) < |rmap|
    ensures Shape(SetRmap(s, p, x))
    ensures PagesTied(g, status, rmap[IdxAt(g, p.line, p.ord) := x], SetRmap(s, p, x), dangling, dies)
  {
    IdxAtUnique(g, p.line, p.ord, p.line, p.ord);
    var t, rmap' := SetRmap(s, p, x), rmap[IdxAt(g, p.line, p.ord) := x];
    forall l, o | 0 <= l < |t.status| && 0 <= o < t.perLine
      ensures PageTied(g, status, rmap', t, dangling, dies, l, o)
    {
      assert PageTied(g, status, rmap, s, dangling, dies, l, o);
      IdxAtUnique(g, p.line, p.ord, l, o);
      hide IdxAt, Erased;
    }
  }

  /** The tables of pages do not depend on the line lists, the counters or the credits. */
  lemma SamePagesTied(g: SsdParams, status: seq<PgStatus>, rmap: seq<Option<nat>>, s: Ftl, dangling: int, dies: nat, t: Ftl)
    requires Shape(s) && Shape(t) && PagesTied(g, status, rmap, s, dangling, dies)
    requires t.perLine == s.perLine && t.rmap == s.rmap && t.status == s.status
    ensures PagesTied(g, status, rmap, t, dangling, dies)
  {
    forall l, o | 0 <= l < |t.status| && 0 <= o < t.perLine
      ensures PageTied(g, status, rmap, t, dangling, dies, l, o)
    {
      assert PageTied(g, status, rmap, s, dangling, dies, l, o);
      hide IdxAt, Erased;
    }
  }

  /** Before any block of it is erased, the line being cleaned is stored like any other. */
  lemma BeginErase(g: SsdParams, status: seq<PgStatus>, rmap: seq<Option<nat>>, s: Ftl, v: int)
    requires Shape(s) && PagesTied(g, status, rmap, s, -1, 0)
    ensures PagesTied(g, status, rmap, s, v, 0)
  {
    forall l, o | 0 <= l < |s.status| && 0 <= o < s.perLine
      ensures PageTied(g, status, rmap, s, v, 0, l, o)
    {
      assert PageTied(g, status, rmap, s, -1, 0, l, o);
      hide IdxAt;
    }
  }

  /** `mark_block_free` on the next die. */
  lemma BlockErased(g: SsdParams, status: seq<PgStatus>, rmap: seq<Option<nat>>, s: Ftl, v: nat, p: Ppa, status': seq<PgStatus>,
                    die: nat, next: nat)
    requires Shape(s) && ValidPpa(g, p) && p.blk == v
    requires die == MulAdd(p.ch, g.lunsPerCh, p.lun) && next == die + 1
    requires PagesTied(g, status, rmap, s, v, die)
    requires |status'| == |status|
    requires forall i :: 0 <= i < |status| ==>
      status'[i] == if First(g, BlkIdx(g, p)) <= i < First(g, BlkIdx(g, p)) + g.pgsPerBlk then Free else status[i]
    ensures PagesTied(g, status', rmap, s, v, next)
  {
    hide IdxAt, Erased, First, BlkIdx, MulAdd;
    forall l, o | 0 <= l < |s.status| && 0 <= o < s.perLine
      ensures PageTied(g, status', rmap, s, v, next, l, o)
    {
      assert PageTied(g, status, rmap, s, v, die, l, o);
      ErasedPage(g, l, o, v, p);
      ErasedGrows(g, o, die, next);
    }
  }

  lemma ErasedGrows(g: SsdParams, o: nat, die: nat, next: nat)
    requires die <= next
    ensures Erased(g, o, die) ==> Erased(g, o, next)
  {
  }

  /** A page lies in the block being erased exactly if its line is the victim and its die is next. */
  lemma ErasedPage(g: SsdParams, l: nat, o: nat, v: nat, p: Ppa)
    requires ValidPpa(g, p) && p.blk == v && l < g.ttLines && o < g.pgsPerLine
    ensures var die := MulAdd(p.ch, g.lunsPerCh, p.lun);
      First(g, BlkIdx(g, p)) <= IdxAt(g, l, o) < First(g, BlkIdx(g, p)) + g.pgsPerBlk <==>
        l == v && Erased(g, o, die + 1) && !Erased(g, o, die)
  {
    var q := PpaAt(g, l, o);
    WriteOrderOnto(g, l, o);
    PageInBlock(g, q, BlkIdx(g, p));
    PgIdxDigits(g, p);
    PgIdxDigits(g, q);
    var d, e := MulAdd(p.ch, g.lunsPerCh, p.lun), MulAdd(q.ch, g.lunsPerCh, q.lun);
    if BlkIdx(g, p) == BlkIdx(g, q) {
      QuotientUnique(d, p.blk, e, q.blk, g.blksPerPl);
    }
    if d == e {
      QuotientUnique(p.ch, p.lun, q.ch, q.lun, g.lunsPerCh);
    }
  }

  /** After the last die the whole line is free. */
  lemma AllErased(g: SsdParams, status: seq<PgStatus>, rmap: seq<Option<nat>>, s: Ftl, v: nat, t: Ftl)
    requires Shape(s) && Shape(t) && v < |s.status|
    requires PagesTied(g, status, rmap, s, v, g.ttLuns)
    requires t.perLine == s.perLine && t.rmap == s.rmap
    requires t.status == s.status[v := seq(s.perLine, _ => Free)]
    ensures PagesTied(g, status, rmap, t, -1, 0)
  {
    forall l, o | 0 <= l < |t.status| && 0 <= o < t.perLine
      ensures PageTied(g, status, rmap, t, -1, 0, l, o)
    {
      assert PageTied(g, status, rmap, s, v, g.ttLuns, l, o);
      DieInRange(g, o);
      hide IdxAt, Erased;
    }
  }

  /** A page of a die that has not had its turn is not erased. */
  lemma NotErased(g: SsdParams, l: nat, o: nat, ch: nat, lun: nat, dies: nat)
    requires PpaAt(g, l, o).ch == ch && PpaAt(g, l, o).lun == lun
    requires dies <= MulAdd(ch, g.lunsPerCh, lun)
    ensures !Erased(g, o, dies)
  {
  }

  lemma DieInRange(g: SsdParams, o: nat)
    requires o < g.pgsPerLine
    ensures Erased(g, o, g.ttLuns)
  {
    WriteOrderOnto(g, 0, o);
    var p := PpaAt(g, 0, o);
    DigitsBounded(p.ch, p.lun, g.nchs, g.lunsPerCh);
  }

  /** The tables of `conv_init_ftl`. */
  lemma InitPagesTied(g: SsdParams, status: seq<PgStatus>, rmap: seq<Option<nat>>)
    requires g.ttLines >= 2 && g.pgsPerLine > 0
    requires |status| == g.ttPgs && forall i :: 0 <= i < |status| ==> status[i] == Free
    requires |rmap| == g.ttPgs && forall i :: 0 <= i < |rmap| ==> rmap[i] == None
    ensures Shape(Init(g.ttLines, g.pgsPerLine, g.ttPgs))
    ensures PagesTied(g, status, rmap, Init(g.ttLines, g.pgsPerLine, g.ttPgs), -1, 0)
  {
    var s := Init(g.ttLines, g.pgsPerLine, g.ttPgs);
    forall l, o | 0 <= l < |s.status| && 0 <= o < s.perLine
      ensures PageTied(g, status, rmap, s, -1, 0, l, o)
    {
      IdxAtUnique(g, l, o, l, o);
    }
  }

  // ---------- write pointers and scan order ----------

  /** The write position stays at the page that write order names next. */
  lemma WpAdvances(g: SsdParams, wp: WritePtr, m: WritePointer)
    requires WpTied(g, wp, m) && m.line < g.ttLines && m.next < g.pgsPerLine
    ensures ValidPpa(g, Ppa(wp.ch, wp.lun, 0, wp.blk, wp.pg)) && wp.pl == 0 && wp.curline == m.line
    ensures (wp.pg + 1) % g.pgsPerOneshotpg == 0 ==> wp.pg + 1 >= g.pgsPerOneshotpg
    ensures var (q, full) := NextPosition(g, Position(wp.ch, wp.lun, wp.pg));
      && (full <==> m.next + 1 == g.pgsPerLine)
      && (full ==> q == Position(0, 0, 0))
      && (!full ==> WpTied(g, wp.(ch := q.ch, lun := q.lun, pg := q.pg), m.(next := m.next + 1)))
  {
    WriteOrderOnto(g, m.line, m.next);
    NextPositionStep(g, wp.blk, Position(wp.ch, wp.lun, wp.pg));
    var (q, full) := NextPosition(g, Position(wp.ch, wp.lun, wp.pg));
    if !full {
      WriteOrderInverse(g, Ppa(q.ch, q.lun, 0, wp.blk, q.pg));
    }
  }

  lemma FreshWp(g: SsdParams, line: nat)
    requires line < g.ttLines
    ensures WpTied(g, WritePtr(line, 0, 0, 0, line, 0), WritePointer(line, 0))
  {
    LineSize(g);
    PagesOfBlocks(g);
    WriteOrderInverse(g, Ppa(0, 0, 0, line, 0));
    OriginFirst(g);
  }

  lemma OriginFirst(g: SsdParams)
    ensures WriteOrder(g, 0, 0, 0) == 0
  {
    DigitsUnique(0, 0, g.pgsPerOneshotpg);
  }

  /** The `k`-th page that the GC loop nest visits, in write order. */
  function ScanOrd(g: SsdParams, k: nat): nat
  {
    var p := ScanPpa(g, 0, k);
    WriteOrder(g, p.ch, p.lun, p.pg)
  }

  function ScanList(g: SsdParams): seq<nat>
  {
    seq(g.pgsPerLine, k requires 0 <= k => ScanOrd(g, k))
  }

  lemma ScanOrdFacts(g: SsdParams, k: nat)
    requires k < g.pgsPerLine
    ensures ScanOrd(g, k) < g.pgsPerLine
    ensures forall line: nat :: line < g.ttLines ==> PpaAt(g, line, ScanOrd(g, k)) == ScanPpa(g, line, k)
  {
    forall line: nat | line < g.ttLines
      ensures PpaAt(g, line, ScanOrd(g, k)) == ScanPpa(g, line, k) && ScanOrd(g, k) < g.pgsPerLine
    {
      ScanOrderOnto(g, line, k);
      WriteOrderInverse(g, ScanPpa(g, line, k));
    }
    assert 0 < g.ttLines;
    ScanOrderOnto(g, 0, k);
    WriteOrderInverse(g, ScanPpa(g, 0, k));
  }
}
