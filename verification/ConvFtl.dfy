/** `struct conv_ftl` and the write and GC path of conv_ftl.c. Every method is proved against the
    step of FtlModel, FtlGc or FtlRuns that it performs. The NVMEV_ASSERTs on these paths are asserts or
    preconditions proved at every call, except the two of `mark_block_free` on the constants `nsecs` and `npgs`, and the
    one of `buffer_allocate` on the size of the request, as the write buffer is not part of this model. */
module ConvFtl {
  import opened Wrappers
  import opened Arith
  import opened Counting
  import opened Geometry
  import opened NandArray
  import opened VictimQueue
  import opened FtlModel
  import opened FtlSteps
  import opened FtlGc
  import opened FtlRuns
  import opened FtlTie
  import opened FtlScan

  class ConvFtl {
    const g: SsdParams
    const nand: Nand
    /** `lm.victim_line_pq`, together with the `vpc` and `pos` of every line. */
    const victimPq: PQueue
    const maptbl: array<Ppa>
    /** None is INVALID_LPN. */
    const rmap: array<Option<nat>>
    /** The `ipc` of every line. */
    const ipc: array<int>

    var freeLines: seq<nat>
    var fullLines: seq<nat>
    var freeLineCnt: nat
    var fullLineCnt: nat
    var victimLineCnt: nat
    var wp: WritePtr
    var gcWp: WritePtr
    var writeCredits: int
    var creditsToRefill: int

    /** The state as a value of the model. */
    ghost var st: Ftl

    ghost function Repr(): set<object> {
      {this, nand, nand.status, nand.vpc, nand.ipc, nand.eraseCnt, victimPq, victimPq.d, victimPq.pri, victimPq.pos,
       maptbl, rmap, ipc}
    }

    /** No two fields share memory, and the sizes fit. */
    ghost predicate Separate() {
      && nand.g == g
      && ipc !in {nand.vpc, nand.ipc, nand.eraseCnt, victimPq.pri}
      && victimPq.pri !in {nand.vpc, nand.ipc, nand.eraseCnt}
      && (nand.status.Length, maptbl.Length, rmap.Length) == (g.ttPgs, g.ttPgs, g.ttPgs)
      && (ipc.Length, victimPq.pri.Length, victimPq.pos.Length) == (g.ttLines, g.ttLines, g.ttLines)
    }

    ghost predicate Sized()
      reads this
    {
      && Separate() && Shape(st)
      && (|st.status|, st.perLine, |st.maptbl|) == (g.ttLines, g.pgsPerLine, g.ttPgs)
    }

    ghost predicate TiedLines()
      reads this, victimPq, victimPq.pri, victimPq.pos, ipc
    {
      && (victimPq.pri[..], ipc[..], victimPq.Members()) == (st.vpc, st.ipc, st.victims)
      && (freeLines, fullLines) == (st.freeLines, st.fullLines)
      && (freeLineCnt, fullLineCnt, victimLineCnt) == (|st.freeLines|, |st.fullLines|, |st.victims|)
      && (writeCredits, creditsToRefill) == (st.credits, st.refill)
    }

    /** The fields represent `st`; while GC cleans line `dangling`, its blocks on the first `dies` dies
        are already erased. */
    ghost predicate Tied(dangling: int, dies: nat)
      reads Repr()
    {
      && Sized()
      && nand.Ok() && victimPq.Ok()
      && PagesTied(g, nand.status[..], rmap[..], st, dangling, dies)
      && MapTied(g, maptbl[..], st.maptbl)
      && TiedLines()
      && WpTied(g, wp, st.user) && WpTied(g, gcWp, st.gc)
    }

    /** The invariant between host page writes. */
    ghost predicate Valid()
      reads Repr()
    {
      Tied(-1, 0) && Going(st)
    }

    /** `conv_init_ftl`. `prepare_write_pointer` takes the first two free lines; its NVMEV_ASSERTs
        need two lines to exist. */
    constructor (params: SsdParams)
      requires params.ttLines >= 2
      ensures g == params && fresh(Repr())
      ensures Tied(-1, 0) && st == Init(params.ttLines, params.pgsPerLine, params.ttPgs)
      ensures Valid() && (params.ttLines >= 5 ==> Inv(st))
    {
      hide Counted, Indexed, Ordered, Tied, Inv, Init;
      g := params;
      nand := new Nand(params);
      victimPq := new PQueue(params.ttLines);
      maptbl := new Ppa[params.ttPgs](_ => Unmapped);
      rmap := new Option<nat>[params.ttPgs](_ => None);
      ipc := new int[params.ttLines](_ => 0);
      var lines: seq<nat> := seq(params.ttLines, i requires 0 <= i => i);
      freeLines := lines[2..];
      fullLines := [];
      freeLineCnt := params.ttLines - 2;
      fullLineCnt := 0;
      victimLineCnt := 0;
      wp := WritePtr(lines[0], 0, 0, 0, lines[0], 0);
      gcWp := WritePtr(lines[1], 0, 0, 0, lines[1], 0);
      writeCredits := params.pgsPerLine;
      creditsToRefill := params.pgsPerLine;
      st := Init(params.ttLines, params.pgsPerLine, params.ttPgs);
      new;
      Initialised();
    }

    /** The fields as `conv_init_ftl` sets them represent the initial state. */
    lemma Initialised()
      requires g.ttLines >= 2 && Separate() && nand.Ok() && victimPq.Ok()
      requires st == Init(g.ttLines, g.pgsPerLine, g.ttPgs)
      requires forall i :: 0 <= i < nand.status.Length ==> nand.status[i] == PgStatus.Free
      requires forall i :: 0 <= i < maptbl.Length ==> maptbl[i] == Unmapped
      requires forall i :: 0 <= i < rmap.Length ==> rmap[i] == None
      requires forall l :: 0 <= l < g.ttLines ==> victimPq.pos[l] == 0 && victimPq.pri[l] == 0 && ipc[l] == 0
      requires |freeLines| == g.ttLines - 2 && fullLines == []
      requires forall i :: 0 <= i < |freeLines| ==> freeLines[i] == i + 2
      requires (freeLineCnt, fullLineCnt, victimLineCnt) == (g.ttLines - 2, 0, 0)
      requires (writeCredits, creditsToRefill) == (g.pgsPerLine, g.pgsPerLine)
      requires wp == WritePtr(0, 0, 0, 0, 0, 0) && gcWp == WritePtr(1, 0, 0, 0, 1, 0)
      ensures Tied(-1, 0)
      ensures Valid() && (g.ttLines >= 5 ==> Inv(st))
    {
      hide Counted, Indexed, Ordered, PpaAt, PagesTied, Erased, IdxAt, Inv, Going, WpTied;
      assert freeLines == st.freeLines;
      LineSize(g);
      InitPagesTied(g, nand.status[..], rmap[..]);
      FreshWp(g, 0);
      FreshWp(g, 1);
      assert victimPq.pri[..] == st.vpc && ipc[..] == st.ipc;
      assert victimPq.Members() == {};
      InitGoing(g.ttLines, g.pgsPerLine, g.ttPgs);
      if g.ttLines >= 5 {
        InitInv(g.ttLines, g.pgsPerLine, g.ttPgs);
      }
    }

    // ---------- small steps ----------

    method SetMaptblEnt(lpn: nat, ppa: Ppa, ghost p: Page, ghost dangling: int, ghost dies: nat)
      requires Tied(dangling, dies) && lpn < g.ttPgs && Names(g, ppa, p.line, p.ord)
      modifies Repr()
      ensures Tied(dangling, dies)
      ensures st == old(st).(maptbl := old(st.maptbl)[lpn := Some(p)])
    {
      hide Counted, Indexed, Ordered, WpTied, IdxAt, Erased, PgIdx, PpaAt;
      assert lpn < g.ttPgs;
      ghost var m := maptbl[..];
      maptbl[lpn] := ppa;
      ghost var was := st;
      st := st.(maptbl := st.maptbl[lpn := Some(p)]);
      assert maptbl[..] == m[lpn := ppa];
      SamePagesTied(g, nand.status[..], rmap[..], was, dangling, dies, st);
    }

    method SetRmapEnt(lpn: Option<nat>, ppa: Ppa, ghost p: Page, ghost dangling: int, ghost dies: nat)
      requires Tied(dangling, dies) && Names(g, ppa, p.line, p.ord) && InRange(st, p)
      modifies Repr()
      ensures Tied(dangling, dies)
      ensures st == SetRmap(old(st), p, lpn)
    {
      assert ppa == PpaAt(g, p.line, p.ord);
      hide Counted, Indexed, Ordered, WpTied, Erased, PgIdx, PpaAt, PagesTied, MapTied;
      RmapTied(g, nand.status[..], rmap[..], st, dangling, dies, p, lpn);
      ghost var r := rmap[..];
      var i := PgIdx(g, ppa);
      rmap[i] := lpn;
      assert rmap[..] == r[IdxAt(g, p.line, p.ord) := lpn];
      st := SetRmap(st, p, lpn);
    }

    /** `get_new_page` */
    method GetNewPage(io: IoType, ghost dangling: int, ghost dies: nat) returns (ppa: Ppa)
      requires Tied(dangling, dies)
      ensures ppa.Ppa? && Names(g, ppa, NewPage(st, io).line, NewPage(st, io).ord)
    {
      var w := if io.UserIo? then wp else gcWp;
      ppa := Ppa(w.ch, w.lun, w.pl, w.blk, w.pg);
      assert ppa.pl == 0;
    }

    /** The line and page part of `mark_page_valid`. */
    method MarkPageValid(ppa: Ppa, ghost p: Page, ghost v: int, ghost dangling: int, ghost dies: nat)
      requires Tied(dangling, dies) && Names(g, ppa, p.line, p.ord)
      requires InRange(st, p) && st.status[p.line][p.ord] == Free
      requires p.line != dangling && p.line !in st.victims
      requires 0 <= st.vpc[p.line] < st.perLine
      modifies Repr()
      ensures Tied(dangling, dies)
      ensures st == MarkValid(old(st), p, v)
    {
      hide Counted, Indexed, Ordered, WpTied, PagesTied, MapTied, PgIdx, BlkIdx, IdxAt, Names;
      NamedPage(g, nand.status[..], rmap[..], st, dangling, dies, ppa, p);
      ghost var t := MarkValid(st, p, v);
      StatusTied(g, nand.status[..], rmap[..], st, dangling, dies, p, PgStatus.Valid, t);
      nand.MarkPageValid(ppa);
      var line := ppa.blk;
      assert 0 <= victimPq.pri[line] < g.pgsPerLine;
      victimPq.SetIdlePriority(victimPq.pri[line] + 1, line);
      st := t;
    }

    /** Taking one from a line's `vpc`, which is its priority when it is in the heap. */
    method DecrementVpc(line: nat)
      requires victimPq.Ok() && line < victimPq.pos.Length
      modifies victimPq.d, victimPq.pri, victimPq.pos
      ensures victimPq.Ok() && victimPq.size == old(victimPq.size)
      ensures victimPq.pri[..] == old(victimPq.pri[..])[line := old(victimPq.pri[line]) - 1]
      ensures victimPq.Members() == old(victimPq.Members())
    {
      hide Indexed, Ordered;
      if victimPq.pos[line] != 0 {
        victimPq.ChangePriority(victimPq.pri[line] - 1, line);
      } else {
        victimPq.SetIdlePriority(victimPq.pri[line] - 1, line);
      }
    }

    /** The counters of the line part of `mark_page_invalid`. */
    method CountInvalid(line: nat, ghost dangling: int, ghost dies: nat)
      requires Tied(dangling, dies) && line < g.ttLines
      modifies Repr()
      ensures Tied(dangling, dies)
      ensures st == Uncounted(old(st), line)
    {
      hide Counted, Indexed, Ordered, WpTied, MapTied;
      ghost var was, t := st, Uncounted(st, line);
      SamePagesTied(g, nand.status[..], rmap[..], was, dangling, dies, t);
      hide PagesTied;
      ghost var i := ipc[..];
      ipc[line] := ipc[line] + 1;
      assert ipc[..] == i[line := i[line] + 1];
      DecrementVpc(line);
      st := t;
    }

    /** The line moves from the full list to the heap. */
    method FullToVictim(line: nat, ghost dangling: int, ghost dies: nat)
      requires Tied(dangling, dies) && line < g.ttLines && line in st.fullLines && line !in st.victims
      modifies Repr()
      ensures Tied(dangling, dies)
      ensures st == old(st).(fullLines := Without(old(st).fullLines, line), victims := old(st).victims + {line})
    {
      hide Counted, Indexed, Ordered, WpTied, MapTied;
      ghost var was, t := st, st.(fullLines := Without(st.fullLines, line), victims := st.victims + {line});
      SamePagesTied(g, nand.status[..], rmap[..], was, dangling, dies, t);
      WithoutSize(was.fullLines, line);
      hide PagesTied;
      assert line !in victimPq.Members();
      fullLines := Without(fullLines, line);
      fullLineCnt := fullLineCnt - 1;
      victimPq.Insert(line);
      victimLineCnt := victimLineCnt + 1;
      st := t;
    }

    /** The line part of `mark_page_invalid`. */
    method MarkLineInvalid(line: nat, ghost dangling: int, ghost dies: nat)
      requires Tied(dangling, dies) && line < g.ttLines
      requires 0 <= st.ipc[line] < st.perLine && 0 < st.vpc[line] <= st.perLine
      requires st.vpc[line] == st.perLine ==> st.ipc[line] == 0 && line in st.fullLines && line !in st.victims
      modifies Repr()
      ensures Tied(dangling, dies)
      ensures st == LineInvalid(old(st), line)
    {
      hide Counted, Indexed, Ordered, WpTied, MapTied, PagesTied;
      var wasFullLine := false;
      assert 0 <= ipc[line] < g.pgsPerLine;
      if victimPq.pri[line] == g.pgsPerLine {
        assert ipc[line] == 0;
        wasFullLine := true;
      }
      assert 0 < victimPq.pri[line] <= g.pgsPerLine;
      CountInvalid(line, dangling, dies);
      if wasFullLine {
        FullToVictim(line, dangling, dies);
      }
    }

    /** `mark_page_invalid` */
    method MarkPageInvalid(ppa: Ppa, ghost p: Page, ghost dangling: int, ghost dies: nat)
      requires Tied(dangling, dies) && Names(g, ppa, p.line, p.ord)
      requires Lists(st, dangling) && Lines(st)
      requires InRange(st, p) && st.status[p.line][p.ord] == PgStatus.Valid && p.line != dangling
      modifies Repr()
      ensures Tied(dangling, dies)
      ensures st == MarkInvalid(old(st), p)
    {
      NamedPage(g, nand.status[..], rmap[..], st, dangling, dies, ppa, p);
      ValidPageCounters(st, dangling, p);
      FullLines(st, dangling, p);
      assert Places(st, dangling, p.line) == 1;
      hide Counted, Indexed, Ordered, WpTied, Names, MapTied, PgIdx, BlkIdx, IdxAt, Lists, Lines, Places;
      ghost var t := st.(status := st.status[p.line := st.status[p.line][p.ord := PgStatus.Invalid]]);
      StatusTied(g, nand.status[..], rmap[..], st, dangling, dies, p, PgStatus.Invalid, t);
      hide PagesTied, LineInvalid;
      nand.MarkPageInvalid(ppa);
      st := t;
      MarkLineInvalid(ppa.blk, dangling, dies);
    }

    // ---------- write pointers ----------

    /** `get_next_free_line`; None is its NULL. */
    method GetNextFreeLine(ghost dangling: int, ghost dies: nat) returns (line: Option<nat>)
      requires Tied(dangling, dies)
      modifies Repr()
      ensures Tied(dangling, dies)
      ensures old(st.freeLines) == [] ==> line == None && st == old(st)
      ensures old(st.freeLines) != [] ==>
        line == Some(old(st.freeLines[0])) && st == old(st).(freeLines := old(st.freeLines)[1..])
    {
      hide Counted, Indexed, Ordered, WpTied, MapTied;
      if freeLines == [] {
        return None;
      }
      line := Some(freeLines[0]);
      ghost var t := st.(freeLines := st.freeLines[1..]);
      SamePagesTied(g, nand.status[..], rmap[..], st, dangling, dies, t);
      hide PagesTied;
      freeLines := freeLines[1..];
      freeLineCnt := freeLineCnt - 1;
      st := t;
    }

    /** The part of `advance_write_pointer` that moves a used-up line to the full list or the heap. */
    method MoveUsedLine(line: nat, ghost dangling: int, ghost dies: nat)
      requires Tied(dangling, dies) && line < g.ttLines && line !in st.victims
      requires st.vpc[line] == st.perLine ==> st.ipc[line] == 0
      requires st.vpc[line] != st.perLine ==> 0 <= st.vpc[line] < st.perLine && st.ipc[line] > 0
      modifies Repr()
      ensures Tied(dangling, dies)
      ensures st == Closed(old(st), line)
    {
      hide Counted, Indexed, Ordered, WpTied, MapTied, PagesTied;
      ghost var t := Closed(st, line);
      SamePagesTied(g, nand.status[..], rmap[..], st, dangling, dies, t);
      if victimPq.pri[line] == g.pgsPerLine {
        assert ipc[line] == 0;
        fullLines := fullLines + [line];
        fullLineCnt := fullLineCnt + 1;
      } else {
        assert 0 <= victimPq.pri[line] < g.pgsPerLine;
        assert ipc[line] > 0;
        assert line !in victimPq.Members();
        victimPq.Insert(line);
        victimLineCnt := victimLineCnt + 1;
      }
      st := t;
    }

    /** The position counters of `advance_write_pointer`. */
    method StepPosition(w: WritePtr) returns (n: WritePtr, full: bool)
      requires ValidPpa(g, Ppa(w.ch, w.lun, 0, w.blk, w.pg))
      requires (w.pg + 1) % g.pgsPerOneshotpg == 0 ==> w.pg + 1 >= g.pgsPerOneshotpg
      ensures (Position(n.ch, n.lun, n.pg), full) == NextPosition(g, Position(w.ch, w.lun, w.pg))
      ensures n == w.(ch := n.ch, lun := n.lun, pg := n.pg)
    {
      full := false;
      assert w.pg < g.pgsPerBlk;
      n := w.(pg := w.pg + 1);
      if n.pg % g.pgsPerOneshotpg != 0 {
        return;
      }
      n := n.(pg := n.pg - g.pgsPerOneshotpg);
      assert n.ch < g.nchs;
      n := n.(ch := n.ch + 1);
      if n.ch != g.nchs {
        return;
      }
      n := n.(ch := 0);
      assert n.lun < g.lunsPerCh;
      n := n.(lun := n.lun + 1);
      if n.lun != g.lunsPerCh {
        return;
      }
      n := n.(lun := 0);
      n := n.(pg := n.pg + g.pgsPerOneshotpg);
      if n.pg != g.pgsPerBlk {
        return;
      }
      n := n.(pg := 0);
      full := true;
    }

    ghost predicate CanAdvance(io: IoType)
      reads this
    {
      var WritePointer(l, o) := Wp(st, io);
      && Sized() && l < g.ttLines && o < st.perLine
      && (o + 1 == st.perLine ==>
            && st.freeLines != [] && st.freeLines[0] < g.ttLines && l !in st.victims
            && (st.vpc[l] == st.perLine ==> st.ipc[l] == 0)
            && (st.vpc[l] != st.perLine ==> 0 <= st.vpc[l] < st.perLine && st.ipc[l] > 0))
    }

    /** `advance_write_pointer` */
    method AdvanceWritePointer(io: IoType, ghost dangling: int, ghost dies: nat)
      requires Tied(dangling, dies) && CanAdvance(io)
      modifies Repr()
      ensures Tied(dangling, dies)
      ensures st == Advance(old(st), io)
    {
      hide Counted, Indexed, Ordered, MapTied, NextPosition, PagesTied, WpTied;
      var wpp := if io.UserIo? then wp else gcWp;
      WpAdvances(g, wpp, Wp(st, io));
      var next, full := StepPosition(wpp);
      if full {
        MoveUsedLine(next.curline, dangling, dies);
        assert next.blk < g.blksPerPl;
        var curline := GetNextFreeLine(dangling, dies);
        assert curline.Some?;
        assert curline.value < g.blksPerPl;
        next := next.(curline := curline.value, blk := curline.value);
        assert next.pg == 0 && next.lun == 0 && next.ch == 0 && next.pl == 0;
        FreshWp(g, next.curline);
        StoreWp(io, next, WritePointer(next.curline, 0), dangling, dies);
      } else {
        StoreWp(io, next, Wp(st, io).(next := Wp(st, io).next + 1), dangling, dies);
      }
    }

    /** Assigning a write pointer structure. */
    method StoreWp(io: IoType, next: WritePtr, ghost m: WritePointer, ghost dangling: int, ghost dies: nat)
      requires Tied(dangling, dies) && WpTied(g, next, m)
      modifies Repr()
      ensures Tied(dangling, dies)
      ensures st == WithWp(old(st), io, m)
    {
      hide Counted, Indexed, Ordered, MapTied, WpTied;
      ghost var t := WithWp(st, io, m);
      SamePagesTied(g, nand.status[..], rmap[..], st, dangling, dies, t);
      hide PagesTied;
      if io.UserIo? {
        wp := next;
      } else {
        gcWp := next;
      }
      st := t;
    }

    // ---------- writing one page ----------

    /** The middle of `conv_write` and of `gc_write_page`: take the page under the write pointer, map
        `lpn` to it both ways, mark it valid and advance. */
    method PutPage(io: IoType, lpn: nat, ghost v: int, ghost dangling: int, ghost dies: nat)
      requires Tied(dangling, dies) && CanPut(st, io, lpn)
      requires Lists(st, dangling) && Lines(st)
      modifies Repr()
      ensures Tied(dangling, dies)
      ensures st == Put(old(st), io, lpn, v)
    {
      hide Counted, Indexed, Ordered, MapTied, PagesTied, WpTied, IdxAt, PpaAt;
      OpenLine(st, dangling, io);
      BeforeAdvance(st, dangling, io, lpn, v);
      hide Lists, Lines, LineOk;
      ghost var p := NewPage(st, io);
      var ppa := GetNewPage(io, dangling, dies);
      SetMaptblEnt(lpn, ppa, p, dangling, dies);
      SetRmapEnt(Some(lpn), ppa, p, dangling, dies);
      MarkPageValid(ppa, p, v, dangling, dies);
      AdvanceWritePointer(io, dangling, dies);
    }

    // ---------- garbage collection ----------

    /** `gc_write_page` */
    method GcWritePage(oldPpa: Ppa, ghost v: nat, ghost n: nat, ghost done: set<nat>, ghost dies: nat)
      requires Tied(v, dies) && Core(st, v, done, -1) && v < g.ttLines && n < st.perLine && n !in done
      requires Room(st, GcIo) >= 2
      requires st.status[v][n] == PgStatus.Valid && Names(g, oldPpa, v, n)
      modifies Repr()
      ensures Tied(v, dies)
      ensures old(st.rmap[v][n]).Some? && CanPut(old(st), GcIo, old(st.rmap[v][n]).value)
      ensures st == CopyBack(old(st), v, n)
    {
      CopyBackCore(st, v, done, n);
      WriteOrderOnto(g, v, n);
      PgIdxInverse(g, oldPpa);
      assert PageTied(g, nand.status[..], rmap[..], st, v, dies, v, n);
      hide Counted, Indexed, Ordered, MapTied, PagesTied, WpTied, PpaAt, Erased;
      var lpn := rmap[PgIdx(g, oldPpa)];
      assert lpn.Some? && lpn.value < g.ttPgs;
      PutPage(GcIo, lpn.value, st.data[v][n], v, dies);
    }

    /** `select_victim_line` */
    method SelectVictimLine(force: bool) returns (victim: Option<nat>)
      requires Tied(-1, 0) && Core(st, -1, {}, -1)
      modifies Repr()
      ensures victim == None ==> Tied(-1, 0) && st == old(st)
      ensures victim == None ==>
        st.victims == {} || (!force && forall u :: u in st.victims && u < |st.vpc| ==> st.vpc[u] > st.perLine / 8)
      ensures victim.Some? ==>
        var v := victim.value;
        && IsVictim(old(st), v) && (force || old(st.vpc)[v] <= st.perLine / 8)
        && Tied(v, 0) && st == old(st).(victims := old(st.victims) - {v})
    {
      hide Counted, Indexed, Ordered, MapTied, WpTied, Core;
      var head := victimPq.Peek();
      if head == VictimQueue.NONE {
        EmptyQueue();
        return None;
      }
      if !force && victimPq.pri[head] > g.pgsPerLine / 8 {
        return None;
      }
      TakeVictim(head);
      victim := Some(head);
    }

    /** The popping part of `select_victim_line`. */
    method TakeVictim(head: nat)
      requires Tied(-1, 0) && victimPq.size > 1 && victimPq.d[1] == head && head < g.ttLines
      modifies Repr()
      ensures Tied(head, 0)
      ensures st == old(st).(victims := old(st.victims) - {head})
    {
      hide Counted, Indexed, Ordered, MapTied, WpTied;
      ghost var t := st.(victims := st.victims - {head});
      SamePagesTied(g, nand.status[..], rmap[..], st, -1, 0, t);
      BeginErase(g, nand.status[..], rmap[..], t, head);
      hide PagesTied;
      var popped := victimPq.Take();
      assert popped == head;
      victimLineCnt := victimLineCnt - 1;
      st := t;
    }

    lemma EmptyQueue()
      requires victimPq.Ok() && victimPq.size == 1
      ensures victimPq.Members() == {}
    {
    }

    /** What `clean_one_flashpg` reads of a page it has not yet handled. */
    lemma VictimPage(sel: Ftl, v: nat, flashpg: nat, ch: nat, lun: nat, i: nat, dies: nat)
      requires GcReady(g, sel, v) && Tied(v, dies) && st.status[v] == sel.status[v]
      requires flashpg < g.flashpgsPerBlk && ch < g.nchs && lun < g.lunsPerCh && i < g.pgsPerFlashpg
      requires dies <= MulAdd(ch, g.lunsPerCh, lun)
      ensures var p := Ppa(ch, lun, 0, v, MulAdd(flashpg, g.pgsPerFlashpg, i));
        var k := ScanBase(g, flashpg, ch, lun) + i;
        && k < g.pgsPerLine && ScanOrd(g, k) < sel.perLine
        && PgIdx(g, p) < nand.status.Length && p == PpaAt(g, v, ScanOrd(g, k))
        && nand.status[PgIdx(g, p)] == sel.status[v][ScanOrd(g, k)] != PgStatus.Free
    {
      var k := ScanBase(g, flashpg, ch, lun) + i;
      ScanStretch(g, v, flashpg, ch, lun, i);
      ScanOrdFacts(g, k);
      CopyToStep(g, sel, v, k);
      assert PageTied(g, nand.status[..], rmap[..], st, v, dies, v, ScanOrd(g, k));
      NotErased(g, v, ScanOrd(g, k), ch, lun, dies);
    }

    /** The flash page `ppa` of the victim is the next one to be handled, and `i` of its pages already are. */
    ghost predicate AtFlashpg(ppa: Ppa, sel: Ftl, v: nat, flashpg: nat, i: nat, dies: nat)
      reads this
    {
      && GcReady(g, sel, v) && Shape(st)
      && ppa.Ppa? && flashpg < g.flashpgsPerBlk && ppa.ch < g.nchs && ppa.lun < g.lunsPerCh && i <= g.pgsPerFlashpg
      && ppa == Ppa(ppa.ch, ppa.lun, 0, v, MulAdd(flashpg, g.pgsPerFlashpg, 0))
      && dies <= MulAdd(ppa.ch, g.lunsPerCh, ppa.lun)
      && ScanBase(g, flashpg, ppa.ch, ppa.lun) + i <= g.pgsPerLine
      && st == CopyTo(g, sel, v, ScanBase(g, flashpg, ppa.ch, ppa.lun) + i)
    }

    /** No page of the flash page has been handled yet. */
    lemma FlashpgVictim(ppa: Ppa, sel: Ftl, v: nat, flashpg: nat, i: nat, dies: nat)
      requires AtFlashpg(ppa, sel, v, flashpg, i, dies)
      ensures GcReady(g, sel, v) && v < |st.status| && v < |sel.status| && st.status[v] == sel.status[v]
      ensures flashpg < g.flashpgsPerBlk && ppa.Ppa? && ppa.ch < g.nchs && ppa.lun < g.lunsPerCh
      ensures ppa == Ppa(ppa.ch, ppa.lun, 0, v, MulAdd(flashpg, g.pgsPerFlashpg, 0))
      ensures dies <= MulAdd(ppa.ch, g.lunsPerCh, ppa.lun)
      ensures ScanBase(g, flashpg, ppa.ch, ppa.lun) + g.pgsPerFlashpg <= g.pgsPerLine
    {
      ScanStretch(g, v, flashpg, ppa.ch, ppa.lun, 0);
      CopyToFacts(g, sel, v, ScanBase(g, flashpg, ppa.ch, ppa.lun) + i);
      hide ScanBase, Core, CopyTo;
    }

    /** The first loop of `clean_one_flashpg`. */
    method CountValid(ppa: Ppa, ghost sel: Ftl, ghost v: nat, ghost flashpg: nat, ghost dies: nat) returns (cnt: nat)
      requires Tied(v, dies) && AtFlashpg(ppa, sel, v, flashpg, 0, dies)
      ensures var base := ScanBase(g, flashpg, ppa.ch, ppa.lun);
        && base + g.pgsPerFlashpg <= g.pgsPerLine
        && (cnt == 0 ==> forall j :: base <= j < base + g.pgsPerFlashpg ==> NotLive(g, sel, v, j))
    {
      hide AtFlashpg, Tied, GcReady, ScanBase, ScanOrd, PpaAt, PgIdx;
      FlashpgVictim(ppa, sel, v, flashpg, 0, dies);
      ghost var base := ScanBase(g, flashpg, ppa.ch, ppa.lun);
      cnt := 0;
      var ppaCopy := ppa;
      for i := 0 to g.pgsPerFlashpg
        invariant Tied(v, dies) && ppaCopy == ppa.(pg := MulAdd(flashpg, g.pgsPerFlashpg, i))
        invariant cnt == 0 ==> forall j :: base <= j < base + i ==> NotLive(g, sel, v, j)
      {
        VictimPage(sel, v, flashpg, ppa.ch, ppa.lun, i, dies);
        var status := nand.status[PgIdx(g, ppaCopy)];
        assert status != PgStatus.Free;
        if status == PgStatus.Valid {
          cnt := cnt + 1;
        }
        ppaCopy := ppaCopy.(pg := ppaCopy.pg + 1);
      }
    }

    /** A flash page without valid pages needs no work. */
    lemma NothingToClean(ppa: Ppa, sel: Ftl, v: nat, flashpg: nat, dies: nat)
      requires AtFlashpg(ppa, sel, v, flashpg, 0, dies)
      requires var base := ScanBase(g, flashpg, ppa.ch, ppa.lun);
        && base + g.pgsPerFlashpg <= g.pgsPerLine
        && forall j :: base <= j < base + g.pgsPerFlashpg ==> NotLive(g, sel, v, j)
      ensures AtFlashpg(ppa, sel, v, flashpg, g.pgsPerFlashpg, dies)
    {
      hide ScanBase, CopyTo, GcReady, NotLive;
      CopyNothing(g, sel, v, ScanBase(g, flashpg, ppa.ch, ppa.lun), g.pgsPerFlashpg);
    }

    lemma FirstOfFlashpg(ppa: Ppa, sel: Ftl, v: nat, flashpg: nat, i: nat, dies: nat)
      requires AtFlashpg(ppa, sel, v, flashpg, i, dies)
      ensures ppa.Ppa? && ppa.pg == MulAdd(flashpg, g.pgsPerFlashpg, 0)
    {
      hide GcReady, ScanBase, CopyTo;
    }

    /** `clean_one_flashpg` on the flash page that starts at `ppa`. */
    method CleanOneFlashpg(ppa: Ppa, ghost sel: Ftl, ghost v: nat, ghost flashpg: nat, ghost dies: nat)
      requires Tied(v, dies) && AtFlashpg(ppa, sel, v, flashpg, 0, dies)
      modifies Repr()
      ensures Tied(v, dies) && AtFlashpg(ppa, sel, v, flashpg, g.pgsPerFlashpg, dies)
    {
      hide Tied, AtFlashpg, NotLive, GcReady, ScanBase;
      FirstOfFlashpg(ppa, sel, v, flashpg, 0, dies);
      var cnt := CountValid(ppa, sel, v, flashpg, dies);
      if cnt <= 0 {
        NothingToClean(ppa, sel, v, flashpg, dies);
        return;
      }
      var ppaCopy := ppa;
      for i := 0 to g.pgsPerFlashpg
        invariant ppaCopy == ppa.(pg := MulAdd(flashpg, g.pgsPerFlashpg, i))
        invariant Tied(v, dies) && AtFlashpg(ppa, sel, v, flashpg, i, dies)
      {
        CleanOnePage(ppa, ppaCopy, sel, v, flashpg, i, dies);
        ppaCopy := ppaCopy.(pg := ppaCopy.pg + 1);
      }
    }

    /** One round of the second loop of `clean_one_flashpg`. */
    method CleanOnePage(ghost ppa: Ppa, cur: Ppa, ghost sel: Ftl, ghost v: nat, ghost flashpg: nat, ghost i: nat, ghost dies: nat)
      requires Tied(v, dies) && AtFlashpg(ppa, sel, v, flashpg, i, dies) && i < g.pgsPerFlashpg
      requires cur == ppa.(pg := MulAdd(flashpg, g.pgsPerFlashpg, i))
      modifies Repr()
      ensures Tied(v, dies) && AtFlashpg(ppa, sel, v, flashpg, i + 1, dies)
    {
      hide ScanBase, ScanOrd, CopyTo, PpaAt, PgIdx, Counted, Indexed, Ordered, MapTied, PagesTied, WpTied, Core, Scanned,
           Room, Put, CanPut, ValidPpa, TiedLines, Separate;
      ghost var k := ScanBase(g, flashpg, ppa.ch, ppa.lun) + i;
      ScanStretch(g, v, flashpg, ppa.ch, ppa.lun, i);
      CopyOne(g, sel, v, k);
      VictimPage(sel, v, flashpg, ppa.ch, ppa.lun, i, dies);
      if nand.status[PgIdx(g, cur)] == PgStatus.Valid {
        GcWritePage(cur, v, ScanOrd(g, k), Scanned(g, k), dies);
      }
    }

    /** `mark_line_free`, after all blocks of the line have been erased. */
    method MarkLineFree(line: nat)
      requires Tied(line, g.ttLuns) && line < g.ttLines && line !in st.victims
      modifies Repr()
      ensures Tied(-1, 0)
      ensures st == FreeLine(old(st), line)
    {
      hide Counted, Indexed, Ordered, WpTied, MapTied;
      ghost var t := FreeLine(st, line);
      AllErased(g, nand.status[..], rmap[..], st, line, t);
      hide PagesTied;
      assert line !in victimPq.Members();
      ghost var i := ipc[..];
      ipc[line] := 0;
      assert ipc[..] == i[line := 0];
      victimPq.SetIdlePriority(0, line);
      freeLines := freeLines + [line];
      freeLineCnt := freeLineCnt + 1;
      st := t;
    }

    /** The next block to be cleaned and freed is the one on die (ch, lun); all flash pages before
        `flashpg` have been handled on every die. */
    ghost predicate AtDie(sel: Ftl, v: nat, flashpg: nat, ch: nat, lun: nat)
      reads Repr()
    {
      && Separate() && GcReady(g, sel, v) && Shape(st)
      && flashpg <= g.flashpgsPerBlk && ch <= g.nchs && lun <= g.lunsPerCh
      && ScanBase(g, flashpg, ch, lun) <= g.pgsPerLine
      && st == CopyTo(g, sel, v, ScanBase(g, flashpg, ch, lun))
      && Tied(v, DiesErased(flashpg, ch, lun))
    }

    /** Blocks are freed in the round of the last flash page. */
    ghost function DiesErased(flashpg: nat, ch: nat, lun: nat): nat {
      if flashpg + 1 < g.flashpgsPerBlk then 0
      else if flashpg + 1 == g.flashpgsPerBlk then MulAdd(ch, g.lunsPerCh, lun)
      else g.ttLuns
    }

    /** The body of the innermost loop of `do_gc`. */
    method CleanDie(ghost sel: Ftl, v: nat, flashpg: nat, ch: nat, lun: nat)
      requires AtDie(sel, v, flashpg, ch, lun)
      requires flashpg < g.flashpgsPerBlk && ch < g.nchs && lun < g.lunsPerCh
      modifies Repr()
      ensures AtDie(sel, v, flashpg, ch, lun + 1)
    {
      hide GcReady, CopyTo, ScanBase, Tied, AtDie, ValidPpa, DiesErased, MulAdd, Shape;
      ghost var dies := DiesErased(flashpg, ch, lun);
      var ppa := Ppa(ch, lun, 0, v, MulAdd(flashpg, g.pgsPerFlashpg, 0));
      StartDie(sel, v, flashpg, ch, lun, ppa);
      CleanOneFlashpg(ppa, sel, v, flashpg, dies);
      if flashpg == g.flashpgsPerBlk - 1 {
        FreeBlock(ppa, v, dies);
      }
      EndDie(sel, v, flashpg, ch, lun, ppa);
    }

    lemma TiedApart(v: int, dies: nat)
      requires Tied(v, dies)
      ensures Separate()
    {
    }

    lemma EndDie(sel: Ftl, v: nat, flashpg: nat, ch: nat, lun: nat, ppa: Ppa)
      requires flashpg < g.flashpgsPerBlk && ch < g.nchs && lun < g.lunsPerCh
      requires ppa == Ppa(ch, lun, 0, v, MulAdd(flashpg, g.pgsPerFlashpg, 0))
      requires AtFlashpg(ppa, sel, v, flashpg, g.pgsPerFlashpg, DiesErased(flashpg, ch, lun))
      requires Tied(v, DiesErased(flashpg, ch, lun) + Bit(flashpg == g.flashpgsPerBlk - 1))
      ensures AtDie(sel, v, flashpg, ch, lun + 1)
    {
      hide Tied, GcReady, CopyTo, ScanBase, Separate;
      TiedApart(v, DiesErased(flashpg, ch, lun) + Bit(flashpg == g.flashpgsPerBlk - 1));
      DieCarry(flashpg, ch, lun);
      ScanCarry(g, flashpg, ch, lun);
    }

    lemma StartDie(sel: Ftl, v: nat, flashpg: nat, ch: nat, lun: nat, ppa: Ppa)
      requires AtDie(sel, v, flashpg, ch, lun)
      requires flashpg < g.flashpgsPerBlk && ch < g.nchs && lun < g.lunsPerCh
      requires ppa == Ppa(ch, lun, 0, v, MulAdd(flashpg, g.pgsPerFlashpg, 0))
      ensures ValidPpa(g, ppa) && Tied(v, DiesErased(flashpg, ch, lun))
      ensures flashpg == g.flashpgsPerBlk - 1 ==> DiesErased(flashpg, ch, lun) == MulAdd(ch, g.lunsPerCh, lun)
      ensures AtFlashpg(ppa, sel, v, flashpg, 0, DiesErased(flashpg, ch, lun))
    {
      hide CopyTo, ScanBase, Tied, Separate, Core;
      ScanStretch(g, v, flashpg, ch, lun, 0);
      DieCarry(flashpg, ch, lun);
    }

    lemma DieCarry(flashpg: nat, ch: nat, lun: nat)
      requires flashpg < g.flashpgsPerBlk && ch < g.nchs && lun < g.lunsPerCh
      ensures DiesErased(flashpg, ch, lun) <= MulAdd(ch, g.lunsPerCh, lun)
      ensures flashpg + 1 < g.flashpgsPerBlk ==>
        DiesErased(flashpg, ch, lun + 1) == DiesErased(flashpg, ch, lun)
      ensures flashpg + 1 == g.flashpgsPerBlk ==>
        && DiesErased(flashpg, ch, lun) == MulAdd(ch, g.lunsPerCh, lun)
        && DiesErased(flashpg, ch, lun + 1) == DiesErased(flashpg, ch, lun) + 1
    {
    }

    /** `mark_block_free` as called from `do_gc`. */
    method FreeBlock(ppa: Ppa, ghost v: nat, ghost die: nat)
      requires ValidPpa(g, ppa) && ppa.blk == v && die == MulAdd(ppa.ch, g.lunsPerCh, ppa.lun)
      requires Tied(v, die)
      modifies Repr()
      ensures Tied(v, die + 1)
      ensures st == old(st)
    {
      hide Counted, Indexed, Ordered, MapTied, WpTied, MulAdd;
      ghost var was := nand.status[..];
      nand.MarkBlockFree(ppa);
      BlockErased(g, was, rmap[..], st, v, ppa, nand.status[..], die, die + 1);
      hide PagesTied;
    }

    /** The ends of the loops of `do_gc` over LUNs, channels and flash pages. */
    lemma LoopCarry(sel: Ftl, v: nat, flashpg: nat, ch: nat)
      requires flashpg < g.flashpgsPerBlk
      ensures ch < g.nchs && AtDie(sel, v, flashpg, ch, g.lunsPerCh) ==> AtDie(sel, v, flashpg, ch + 1, 0)
      ensures AtDie(sel, v, flashpg, g.nchs, 0) ==> AtDie(sel, v, flashpg + 1, 0, 0)
    {
      hide GcReady, CopyTo, ScanBase, Tied, Separate, DiesErased;
      ScanCarry(g, flashpg, ch, 0);
      ErasedCarry(flashpg, ch);
    }

    lemma ErasedCarry(flashpg: nat, ch: nat)
      requires flashpg < g.flashpgsPerBlk
      ensures DiesErased(flashpg, ch, g.lunsPerCh) == DiesErased(flashpg, ch + 1, 0)
      ensures DiesErased(flashpg, g.nchs, 0) == DiesErased(flashpg + 1, 0, 0)
    {
      Distribute(ch, 1, g.lunsPerCh);
      assert MulAdd(g.nchs, g.lunsPerCh, 0) == g.ttLuns;
    }

    /** The copy-back loops of `do_gc`. */
    method CleanLine(ghost sel: Ftl, v: nat)
      requires Tied(v, 0) && GcReady(g, sel, v) && st == sel
      modifies Repr()
      ensures Tied(v, g.ttLuns)
      ensures GcReady(g, sel, v) && st == CopyTo(g, sel, v, g.pgsPerLine)
    {
      hide *;
      BeginLine(sel, v);
      for flashpg := 0 to g.flashpgsPerBlk
        invariant AtDie(sel, v, flashpg, 0, 0)
      {
        for ch := 0 to g.nchs
          invariant AtDie(sel, v, flashpg, ch, 0)
        {
          for lun := 0 to g.lunsPerCh
            invariant AtDie(sel, v, flashpg, ch, lun)
          {
            CleanDie(sel, v, flashpg, ch, lun);
          }
          LoopCarry(sel, v, flashpg, ch);
        }
        LoopCarry(sel, v, flashpg, 0);
      }
      EndLine(sel, v);
    }

    lemma BeginLine(sel: Ftl, v: nat)
      requires Tied(v, 0) && GcReady(g, sel, v) && st == sel
      ensures AtDie(sel, v, 0, 0, 0)
    {
      ScanCarry(g, 0, 0, 0);
      CopyToFacts(g, sel, v, 0);
      hide Tied, CopyTo;
    }

    lemma EndLine(sel: Ftl, v: nat)
      requires AtDie(sel, v, g.flashpgsPerBlk, 0, 0)
      ensures Tied(v, g.ttLuns) && GcReady(g, sel, v) && st == CopyTo(g, sel, v, g.pgsPerLine)
    {
      ScanCarry(g, 0, 0, 0);
      hide Tied, CopyTo, ScanBase, GcReady;
    }

    /** `conv_ftl->wfc.credits_to_refill = victim_line->ipc` */
    method NoteRefill(v: nat)
      requires Tied(v, 0) && v < g.ttLines
      modifies Repr()
      ensures Tied(v, 0)
      ensures st == old(st).(refill := old(st.ipc)[v])
    {
      hide Counted, Indexed, Ordered, MapTied, WpTied;
      ghost var t := st.(refill := st.ipc[v]);
      SamePagesTied(g, nand.status[..], rmap[..], st, v, 0, t);
      hide PagesTied;
      creditsToRefill := ipc[v];
      st := t;
    }

    /** `do_gc`; 0 on success and -1 when there is no victim. The write pointer of GC must not use up a line that has
        no free successor. */
    method DoGc(force: bool) returns (r: int, ghost victim: nat)
      requires Tied(-1, 0) && Core(st, -1, {}, -1)
      requires forall v: nat :: IsVictim(st, v) && (force || st.vpc[v] <= st.perLine / 8) ==> HasRoom(st, v)
      modifies Repr()
      ensures r == 0 || r == -1
      ensures Tied(-1, 0)
      ensures r == -1 ==> st == old(st)
      ensures r == -1 ==>
        st.victims == {} || (!force && forall u :: u in st.victims && u < |st.vpc| ==> st.vpc[u] > st.perLine / 8)
      ensures r == 0 ==>
        && IsVictim(old(st), victim) && (force || old(st.vpc)[victim] <= st.perLine / 8)
        && ScansLine(ScanList(g), old(st).perLine)
        && st == Gc(old(st), victim, ScanList(g))
    {
      var line := SelectVictimLine(force);
      if line == None {
        return -1, 0;
      }
      var v := line.value;
      victim := v;
      ghost var sel := Select(old(st), v);
      CopyToEnd(g, old(st), v);
      hide Core, GcReady, CopyTo, HasRoom, Tied, ScansLine, Gc;
      NoteRefill(v);
      CleanLine(sel, v);
      NotAVictim(sel, v);
      MarkLineFree(v);
      r := 0;
    }

    /** The line being cleaned is in no list. */
    lemma NotAVictim(sel: Ftl, v: nat)
      requires GcReady(g, sel, v)
      ensures v !in CopyTo(g, sel, v, g.pgsPerLine).victims
    {
      CopyToFacts(g, sel, v, g.pgsPerLine);
      var c := CopyTo(g, sel, v, g.pgsPerLine);
      assert Places(c, v, v) == 1;
    }

    // ---------- write credits ----------

    /** `foreground_gc` and the rest of `check_and_refill_write_credit`, whether or not a forced GC finds a victim.
        The code compares the unsigned counter with `<= 0`; it never goes below zero. */
    method CheckAndRefillWriteCredit() returns (ghost victim: nat)
      requires Tied(-1, 0) && Core(st, -1, {}, -1) && GcFits(st)
      modifies Repr()
      ensures MayTake(old(st), victim)
      ensures Tied(-1, 0)
      ensures ScansLine(ScanList(g), old(st).perLine)
      ensures st == Replenish(old(st), victim, ScanList(g))
    {
      ScanListScansLine(g);
      hide Core, HasRoom, ScansLine, Gc, Indexed, Ordered, Counted, PagesTied, MapTied, WpTied;
      victim := 0;
      if writeCredits <= 0 {
        if freeLineCnt <= GC_THRES_LINES {
          var r;
          r, victim := DoGc(true);
        }
        GrantCredits();
      }
    }

    method GrantCredits()
      requires Tied(-1, 0)
      modifies Repr()
      ensures Tied(-1, 0)
      ensures st == old(st).(credits := old(st.credits) + old(st.refill))
    {
      hide Counted, Indexed, Ordered, MapTied, WpTied;
      ghost var t := st.(credits := st.credits + st.refill);
      SamePagesTied(g, nand.status[..], rmap[..], st, -1, 0, t);
      hide PagesTied;
      writeCredits := writeCredits + creditsToRefill;
      st := t;
    }

    /** `consume_write_credit`; the unsigned counter does not wrap around. */
    method ConsumeWriteCredit()
      requires Tied(-1, 0) && st.credits > 0
      modifies Repr()
      ensures Tied(-1, 0)
      ensures st == old(st).(credits := old(st.credits) - 1)
    {
      hide Counted, Indexed, Ordered, MapTied, WpTied;
      ghost var t := st.(credits := st.credits - 1);
      SamePagesTied(g, nand.status[..], rmap[..], st, -1, 0, t);
      hide PagesTied;
      writeCredits := writeCredits - 1;
      st := t;
    }

    // ---------- host writes ----------

    /** The part of the loop body of `conv_write` that unmaps a page written before. */
    method UnmapPage(lpn: nat)
      requires Tied(-1, 0) && Core(st, -1, {}, -1) && lpn < g.ttPgs
      modifies Repr()
      ensures Tied(-1, 0)
      ensures old(st).maptbl[lpn].Some? ==> InRange(old(st), old(st).maptbl[lpn].value)
      ensures st == Unmap(old(st), lpn)
    {
      assert MapsBack(st, -1, {}, lpn);
      var ppa := maptbl[lpn];
      assert ppa == ToPpa(g, st.maptbl[lpn]);
      if ppa != Unmapped {
        ghost var p := st.maptbl[lpn].value;
        hide Counted, Indexed, Ordered, PagesTied, MapTied, WpTied, PpaAt, Lists, Lines;
        MarkPageInvalid(ppa, p, -1, 0);
        SetRmapEnt(None, ppa, p, -1, 0);
      }
    }

    /** The loop body of `conv_write` for a logical page of this partition: the page reads the new
        value afterwards, every other page reads what it read before. At most one page of space is used, and the
        reserve stays as long as few enough pages have been written. It fails if and only if the page or the GC it
        causes uses up a line while no line is free. */
    method WritePage(lpn: nat, ghost v: int) returns (ghost victim: nat)
      requires Valid() && lpn < g.ttPgs && lpn < |st.maptbl| && PageFits(st, lpn, v)
      modifies Repr()
      ensures Valid()
      ensures PageFits(old(st), lpn, v) && ScansLine(ScanList(g), old(st).perLine)
      ensures var w := HostWrite(old(st), lpn, v);
        && Core(w, -1, {}, -1) && w.perLine == old(st).perLine && GcFits(w) && MayTake(w, victim)
        && st == Replenish(w, victim, ScanList(g))
      ensures |st.maptbl| == g.ttPgs && Space(st) >= Space(old(st)) - 1
      ensures forall x :: 0 <= x < g.ttPgs ==> Read(st, x) == if x == lpn then Some(v) else Read(old(st), x)
      ensures Mapped(st) == Mapped(old(st)) + {lpn}
      ensures Inv(old(st)) && FewWritten(old(st), lpn) ==> Inv(st)
    {
      hide Tied, Inv, Core, Space, Room, Going, GcFits, MayTake, HostWrite, Replenish, Unmap, Put, CanPut, Read, Mapped,
           FewWritten, ScansLine, ScanList;
      ghost var s := st;
      ValidSizes();
      PageSteps(st, lpn, v);
      ScanListScansLine(g);
      UnmapPage(lpn);
      PutUnmapped(lpn, v);
      ConsumeWriteCredit();
      victim := CheckAndRefillWriteCredit();
      WriteEffect(s, lpn, v, victim, ScanList(g));
    }

    lemma ValidSizes()
      requires Valid()
      ensures Tied(-1, 0) && Going(st) && |st.maptbl| == g.ttPgs && st.perLine == g.pgsPerLine
    {
      hide Going, Counted, Indexed, Ordered, PagesTied, MapTied, WpTied;
    }

    method PutUnmapped(lpn: nat, ghost v: int)
      requires Tied(-1, 0) && Core(st, -1, {}, lpn) && CanPut(st, UserIo, lpn)
      modifies Repr()
      ensures Tied(-1, 0)
      ensures st == Put(old(st), UserIo, lpn, v)
    {
      hide Tied, Lists, Lines, Maps, CanPut;
      PutPage(UserIo, lpn, v, -1, 0);
    }
  }
}
