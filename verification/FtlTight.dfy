/** Writing the logical pages one after the other: GC never finds a victim, and what that leads to. */
module FtlTight {
  import opened Wrappers
  import opened Arith
  import opened Counting
  import opened NandArray
  import opened FtlModel
  import opened FtlSteps
  import opened FtlGc
  import opened FtlRuns

  /** Writes to the logical pages 0, 1, ..., n - 1. */
  ghost function Sequential(n: nat): seq<Write> {
    seq(n, i requires 0 <= i => Write(i, 0))
  }

  lemma SequentialWrites(d: Device, n: nat)
    requires n <= d.pages
    ensures WritesTo(Sequential(n), Upto(n)) && WritesTo(Sequential(n), Upto(d.pages)) && |Sequential(n)| == n
    ensures n > 0 ==> Sequential(n) == Sequential(n - 1) + [Write(n - 1, 0)]
  {
  }

  /** After `n` pages, that is `q` full lines and `r` more pages: nothing has been invalidated. */
  ghost predicate Filled(d: Device, s: Ftl, q: nat, r: nat, n: nat) {
    && Going(s) && Sized(d, s) && r < s.perLine
    && s.victims == {} && (forall l :: 0 <= l < |s.ipc| ==> s.ipc[l] == 0)
    && s.user.next == r && s.gc.next == 0 && |s.freeLines| + 2 + q == |s.status|
    && s.credits == s.perLine - r && s.refill == s.perLine
    && Mapped(s) == Upto(n)
  }

  ghost predicate OnePageMore(s: Ftl, w: Ftl, r: nat) {
    && w.victims == {} && (forall l :: 0 <= l < |w.ipc| ==> w.ipc[l] == 0) && |w.status| == |s.status|
    && w.refill == s.perLine == w.perLine && w.credits == s.perLine - r - 1 && w.gc.next == 0
    && (if r + 1 < s.perLine then w.user.next == r + 1 && |w.freeLines| == |s.freeLines|
        else w.user.next == 0 && |w.freeLines| + 1 == |s.freeLines|)
  }

  /** The host's write pointer has a second page to go to, except at the end of the last free line. */
  lemma FillRoom(d: Device, s: Ftl, q: nat, r: nat, n: nat)
    requires Filled(d, s, q, r, n)
    ensures Core(s, -1, {}, -1)
    ensures Room(s, UserIo) >= 2 <==> (r + 1 < s.perLine || q + 2 < |s.status|)
  {
    hide Core, Room, Mapped;
    RoomMeansFreeLine(s, UserIo);
  }

  lemma FillWrite(d: Device, s: Ftl, q: nat, r: nat, n: nat, v: int)
    requires Filled(d, s, q, r, n) && n < d.pages && (r + 1 < s.perLine || q + 2 < |s.status|)
    ensures Core(s, -1, {}, -1) && Room(s, UserIo) >= 2
    ensures OnePageMore(s, HostWrite(s, n, v), r)
  {
    FillRoom(d, s, q, r, n);
    HostWriteCore(s, n, v);
    hide Room;
    assert n !in Mapped(s);
    assert Unmap(s, n) == s;
    if r + 1 == s.perLine {
      ClosedLineCounters(s, -1, UserIo, n, v);
    }
  }

  lemma NoVictimFits(w: Ftl)
    requires w.victims == {}
    ensures GcFits(w)
  {
  }

  /** One page more; without a victim GC does nothing, so new credits are granted whenever they are used up. */
  lemma FillStep(d: Device, s: Ftl, q: nat, r: nat, n: nat, k: nat)
    requires Ok(d) && Filled(d, s, q, r, n) && n < d.pages && (r + 1 < d.perLine || q + 2 < d.lines)
    ensures var t := PageWrite(d, k, s, Write(n, 0));
      t.Some? && Filled(d, t.value, q + Bit(r + 1 == d.perLine), if r + 1 == d.perLine then 0 else r + 1, n + 1)
  {
    hide Core, HostWrite, Ok, GcFits, Mapped, Room, OnePageMore;
    FillWrite(d, s, q, r, n, 0);
    var w := HostWrite(s, n, 0);
    assert w.victims == {} by {
      RevealMore(s, w, r);
    }
    NoVictimFits(w);
    PageWriteEffect(d, k, s, Write(n, 0));
    assert Upto(n) + {n} == Upto(n + 1);
    Granted(d, k, s, Write(n, 0));
    FilledNext(d, s, w, PageWrite(d, k, s, Write(n, 0)).value, q, r, n);
  }

  lemma RevealMore(s: Ftl, w: Ftl, r: nat)
    requires OnePageMore(s, w, r)
    ensures w.victims == {}
  {
  }

  lemma Granted(d: Device, k: nat, s: Ftl, w: Write)
    requires Ok(d) && Going(s) && Sized(d, s) && w.lpn < d.pages && PageFits(s, w.lpn, w.v)
    requires HostWrite(s, w.lpn, w.v).victims == {}
    ensures PageWrite(d, k, s, w).value == Refilled(HostWrite(s, w.lpn, w.v))
  {
    hide Core, HostWrite, GcFits, Room, ScansLine, ChoosesVictim, Gc;
  }

  ghost function Refilled(w: Ftl): Ftl {
    if w.credits > 0 then w else w.(credits := w.credits + w.refill)
  }

  lemma FilledNext(d: Device, s: Ftl, w: Ftl, t: Ftl, q: nat, r: nat, n: nat)
    requires Filled(d, s, q, r, n) && Going(t) && Sized(d, t) && Mapped(t) == Upto(n + 1)
    requires OnePageMore(s, w, r) && t == Refilled(w)
    ensures Filled(d, t, q + Bit(r + 1 == s.perLine), if r + 1 == s.perLine then 0 else r + 1, n + 1)
  {
    hide Going, Mapped;
  }

  lemma FillInit(d: Device)
    requires Ok(d)
    ensures Filled(d, Init(d.lines, d.perLine, d.pages), 0, 0, 0)
  {
    InitGoing(d.lines, d.perLine, d.pages);
    hide Going, Mapped;
  }

  /** The run that fills `q` lines and `r` pages of another one. */
  lemma {:induction false} FillRun(d: Device, q: nat, r: nat, n: nat)
    requires Ok(d) && r < d.perLine && q + 2 <= d.lines && n == MulAdd(q, d.perLine, r) && n <= d.pages
    ensures WritesTo(Sequential(n), Upto(d.pages))
    ensures var t := Run(d, Sequential(n)); t.Some? && Filled(d, t.value, q, r, n)
    decreases q, r
  {
    hide Filled, Ok, Init, PageWrite, Going, Sized, MulAdd, WritesTo, Sequential, Run, Upto;
    SequentialWrites(d, n);
    LastPosition(q, r, d.perLine);
    if r > 0 {
      FillRun(d, q, r - 1, n - 1);
      FillNext(d, q, r - 1, n - 1, q, r);
    } else if q > 0 {
      FillRun(d, q - 1, d.perLine - 1, n - 1);
      FillNext(d, q - 1, d.perLine - 1, n - 1, q, r);
    } else {
      RunStart(d);
      FillInit(d);
    }
  }

  lemma RunStart(d: Device)
    requires Ok(d)
    ensures d.lines >= 2 && Sequential(0) == [] && Run(d, Sequential(0)) == Some(Init(d.lines, d.perLine, d.pages))
  {
    assert Sequential(0) == [];
  }

  /** From `q` lines and `r` pages to the next page. */
  lemma FillNext(d: Device, q: nat, r: nat, n: nat, q': nat, r': nat)
    requires Ok(d) && WritesTo(Sequential(n), Upto(d.pages)) && Run(d, Sequential(n)).Some? && n < d.pages
    requires Filled(d, Run(d, Sequential(n)).value, q, r, n) && r < d.perLine && q' + 2 <= d.lines
    requires if r + 1 == d.perLine then q' == q + 1 && r' == 0 else q' == q && r' == r + 1
    ensures WritesTo(Sequential(n + 1), Upto(d.pages))
    ensures var t := Run(d, Sequential(n + 1)); t.Some? && Filled(d, t.value, q', r', n + 1)
  {
    hide Ok, Run, PageWrite, Going, Filled, WritesTo, Sequential, Upto;
    FillStep(d, Run(d, Sequential(n)).value, q, r, n, n);
    SequentialWrites(d, n);
    SequentialWrites(d, n + 1);
    RunNext(d, Sequential(n), Write(n, 0));
  }

  /** The position before the `r`-th page of line `q`. */
  lemma LastPosition(q: nat, r: nat, perLine: nat)
    requires r < perLine
    ensures MulAdd(q, perLine, r) == 0 <==> q == 0 && r == 0
    ensures r > 0 ==> MulAdd(q, perLine, r - 1) == MulAdd(q, perLine, r) - 1
    ensures r == 0 && q > 0 ==> MulAdd(q - 1, perLine, perLine - 1) == MulAdd(q, perLine, r) - 1
  {
    if q > 0 {
      Distribute(q - 1, 1, perLine);
      PositiveProduct(q, perLine);
    }
  }

  // ---------- a forced GC without a victim ----------

  /** Writing a page uses up the credits while at most two lines are free and no line has an invalid page. */
  ghost predicate GcStuck(s: Ftl, w: Write) {
    && Core(s, -1, {}, -1) && w.lpn < |s.maptbl| && Room(s, UserIo) >= 2
    && var u := HostWrite(s, w.lpn, w.v); GcForced(u) && u.victims == {}
  }

  /** A run over at most `n` logical pages at the end of which a forced GC finds no victim. */
  ghost predicate StuckAfter(d: Device, n: nat, writes: seq<Write>, w: Write, written: set<nat>)
    requires Ok(d)
  {
    && written <= Upto(d.pages) && |written| <= n
    && WritesTo(writes, written) && w.lpn in written && WritesTo(writes, Upto(d.pages))
    && Run(d, writes).Some? && GcStuck(Run(d, writes).value, w)
  }

  ghost predicate NeverStuck(d: Device, n: nat)
    requires Ok(d)
  {
    forall writes: seq<Write>, w: Write, written: set<nat> :: !StuckAfter(d, n, writes, w, written)
  }

  /** Writing the last page of all but four lines gets GC stuck. */
  lemma BoundIsTight(d: Device)
    requires Ok(d) && d.lines >= 5 && (d.lines - 4) * d.perLine <= d.pages
    ensures var last := (d.lines - 4) * d.perLine - 1;
      && last >= 0 && WritesTo(Sequential(last), Upto(d.pages))
      && Run(d, Sequential(last)).Some? && GcStuck(Run(d, Sequential(last)).value, Write(last, 0))
  {
    hide ChoosesVictim, ScansLine, Run, GcStuck, Filled;
    var q := d.lines - 5;
    var last := q * d.perLine + (d.perLine - 1);
    Distribute(q, 1, d.perLine);
    FillRun(d, q, d.perLine - 1, last);
    FilledGetsStuck(d, Run(d, Sequential(last)).value, q, d.perLine - 1, last);
  }

  lemma FilledGetsStuck(d: Device, s: Ftl, q: nat, r: nat, n: nat)
    requires Filled(d, s, q, r, n) && r + 1 == s.perLine && q + 5 == |s.status| && n < d.pages
    ensures GcStuck(s, Write(n, 0))
  {
    hide Core, HostWrite, Room, Mapped;
    FillWrite(d, s, q, r, n, 0);
  }

  lemma NotStuck(d: Device, n: nat, writes: seq<Write>, w: Write, written: set<nat>)
    requires Ok(d) && d.lines >= 5 && n < (d.lines - 4) * d.perLine
    ensures !StuckAfter(d, n, writes, w, written)
  {
    hide ChoosesVictim, ScansLine, Run, Inv, Mapped, Space, HostWrite, Room;
    if StuckAfter(d, n, writes, w, written) {
      RunNeverFails(d, writes, written);
      var s := Run(d, writes).value;
      SubsetSize(Mapped(s) + {w.lpn}, written);
      StuckHasSpace(s, w.lpn, w.v);
      HostWriteSpends(s, w.lpn, w.v);
    }
  }

  lemma StuckAbove(d: Device, n: nat)
    requires Ok(d) && d.lines >= 5 && (d.lines - 4) * d.perLine <= n <= d.pages
    ensures !NeverStuck(d, n)
  {
    hide Ok, StuckAfter, Run, WritesTo, GcStuck, Sequential, Upto;
    BoundIsTight(d);
    StuckAt(d, n, (d.lines - 4) * d.perLine - 1);
  }

  lemma StuckAt(d: Device, n: nat, last: nat)
    requires Ok(d) && last < n <= d.pages && WritesTo(Sequential(last), Upto(d.pages))
    requires Run(d, Sequential(last)).Some? && GcStuck(Run(d, Sequential(last)).value, Write(last, 0))
    ensures !NeverStuck(d, n)
  {
    hide Ok, Run, WritesTo, GcStuck, Sequential, Upto;
    SequentialIn(last, last + 1);
    UptoMono(last + 1, d.pages);
    assert StuckAfter(d, n, Sequential(last), Write(last, 0), Upto(last + 1));
  }

  /** A forced GC finds a victim in every run over at most `n` logical pages if and only if `n` is less than
      (tt_lines - 4) * pgs_per_line, whichever victims are chosen. */
  lemma BoundIsExact(d: Device, n: nat)
    requires Ok(d) && d.lines >= 5 && n <= d.pages
    ensures NeverStuck(d, n) <==> n < (d.lines - 4) * d.perLine
  {
    hide Ok, StuckAfter;
    if n < (d.lines - 4) * d.perLine {
      forall writes: seq<Write>, w: Write, written: set<nat>
        ensures !StuckAfter(d, n, writes, w, written)
      {
        NotStuck(d, n, writes, w, written);
      }
    } else {
      StuckAbove(d, n);
    }
  }

  lemma SequentialIn(m: nat, n: nat)
    requires m <= n
    ensures WritesTo(Sequential(m), Upto(n))
  {
  }

  lemma UptoMono(m: nat, n: nat)
    requires m <= n
    ensures Upto(m) <= Upto(n) && |Upto(m)| == m
  {
  }

  // ---------- running out of lines ----------

  /** Filling all lines but the one GC writes to fails at the last page, on every device. */
  lemma SequentialFails(d: Device)
    requires Ok(d) && (d.lines - 1) * d.perLine <= d.pages
    ensures WritesTo(Sequential((d.lines - 1) * d.perLine), Upto(d.pages))
    ensures Run(d, Sequential((d.lines - 1) * d.perLine)) == None
  {
    hide ChoosesVictim, ScansLine, Filled, PageWrite, Run;
    var q := d.lines - 2;
    var last := q * d.perLine + (d.perLine - 1);
    Distribute(q, 1, d.perLine);
    FillRun(d, q, d.perLine - 1, last);
    FilledFails(d, last, Run(d, Sequential(last)).value, last);
    SequentialWrites(d, last + 1);
    RunNext(d, Sequential(last), Write(last, 0));
  }

  lemma FilledFails(d: Device, k: nat, s: Ftl, n: nat)
    requires Ok(d) && Filled(d, s, d.lines - 2, d.perLine - 1, n) && n < d.pages
    ensures PageWrite(d, k, s, Write(n, 0)) == None
  {
    hide Core, HostWrite, Room, Mapped;
    FillRoom(d, s, d.lines - 2, d.perLine - 1, n);
  }
}
