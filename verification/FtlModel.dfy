/** The page-mapped FTL of conv_ftl.c as a value, one function per step of the code.
    A page is named by its line and its place in write order, so a write pointer is a line and the
    number of pages already written to it. Every page also holds the value last programmed into it,
    which the emulator itself keeps elsewhere: it says what the mapping tables mean. */
module FtlModel {
  import opened Wrappers
  import opened Counting
  import opened NandArray

  datatype Page = Page(line: nat, ord: nat)

  datatype WritePointer = WritePointer(line: nat, next: nat)

  datatype IoType = UserIo | GcIo

  datatype Ftl = Ftl(
    perLine: nat,
    maptbl: seq<Option<Page>>,
    rmap: seq<seq<Option<nat>>>,
    status: seq<seq<PgStatus>>,
    data: seq<seq<int>>,
    vpc: seq<int>,
    ipc: seq<int>,
    freeLines: seq<nat>,
    fullLines: seq<nat>,
    victims: set<nat>,
    user: WritePointer,
    gc: WritePointer,
    credits: int,
    refill: int)

  /** GC_THRES_LINES_HIGH of `conv_init_params`. */
  const GC_THRES_LINES: nat := 2

  // ---------- shape ----------

  ghost predicate Shape(s: Ftl) {
    var n := |s.status|;
    && s.perLine > 0
    && |s.rmap| == n && |s.data| == n && |s.vpc| == n && |s.ipc| == n
    && (forall l :: 0 <= l < n ==> |s.status[l]| == s.perLine)
    && (forall l :: 0 <= l < n ==> |s.rmap[l]| == s.perLine)
    && (forall l :: 0 <= l < n ==> |s.data[l]| == s.perLine)
  }

  ghost predicate InRange(s: Ftl, p: Page) {
    p.line < |s.status| && p.ord < s.perLine
  }

  function Wp(s: Ftl, io: IoType): WritePointer {
    if io.UserIo? then s.user else s.gc
  }

  function WithWp(s: Ftl, io: IoType, wp: WritePointer): Ftl {
    if io.UserIo? then s.(user := wp) else s.(gc := wp)
  }

  // ---------- host writes ----------

  /** The list without its first `x` (list_del_init). */
  function Without(list: seq<nat>, x: nat): seq<nat> {
    if list == [] then []
    else if list[0] == x then list[1..]
    else [list[0]] + Without(list[1..], x)
  }

  lemma {:induction false} WithoutElements(list: seq<nat>, x: nat)
    requires NoDup(list)
    ensures NoDup(Without(list, x))
    ensures forall y :: y in Without(list, x) <==> y in list && y != x
  {
    if list != [] {
      assert list == [list[0]] + list[1..];
      assert list[0] !in list[1..];
      if list[0] != x {
        WithoutElements(list[1..], x);
        assert list[0] !in Without(list[1..], x);
      }
    }
  }

  lemma {:induction false} WithoutSize(list: seq<nat>, x: nat)
    ensures |Without(list, x)| == |list| - (if x in list then 1 else 0)
  {
    if list != [] {
      assert list == [list[0]] + list[1..];
      WithoutSize(list[1..], x);
    }
  }

  /** The counters of a line of which a page became invalid. */
  ghost function Uncounted(s: Ftl, l: nat): Ftl
    requires l < |s.ipc| && l < |s.vpc|
  {
    s.(ipc := s.ipc[l := s.ipc[l] + 1], vpc := s.vpc[l := s.vpc[l] - 1])
  }

  /** The line part of `mark_page_invalid`: a page of line `l` became invalid. */
  ghost function LineInvalid(s: Ftl, l: nat): Ftl
    requires l < |s.ipc| && l < |s.vpc|
  {
    if s.vpc[l] == s.perLine then
      Uncounted(s, l).(fullLines := Without(s.fullLines, l), victims := s.victims + {l})
    else
      Uncounted(s, l)
  }

  /** `mark_page_invalid` */
  ghost function MarkInvalid(s: Ftl, p: Page): Ftl
    requires Shape(s) && InRange(s, p)
  {
    LineInvalid(s.(status := s.status[p.line := s.status[p.line][p.ord := Invalid]]), p.line)
  }

  /** `set_rmap_ent` */
  ghost function SetRmap(s: Ftl, p: Page, lpn: Option<nat>): Ftl
    requires Shape(s) && InRange(s, p)
  {
    s.(rmap := s.rmap[p.line := s.rmap[p.line][p.ord := lpn]])
  }

  /** `mark_page_invalid`, and INVALID_LPN into the reverse map as `conv_write` does next. */
  ghost function Invalidate(s: Ftl, p: Page): Ftl
    requires Shape(s) && InRange(s, p)
  {
    SetRmap(MarkInvalid(s, p), p, None)
  }

  /** `mark_page_valid`; the page now holds `v`. */
  ghost function MarkValid(s: Ftl, p: Page, v: int): Ftl
    requires Shape(s) && InRange(s, p)
  {
    s.(status := s.status[p.line := s.status[p.line][p.ord := Valid]],
       data := s.data[p.line := s.data[p.line][p.ord := v]],
       vpc := s.vpc[p.line := s.vpc[p.line] + 1])
  }

  /** The page under a write pointer (`get_new_page`). */
  ghost function NewPage(s: Ftl, io: IoType): Page {
    Page(Wp(s, io).line, Wp(s, io).next)
  }

  /** The tables after `lpn` is written to the page under the write pointer, before it advances. */
  ghost function Program(s: Ftl, io: IoType, lpn: nat, v: int): Ftl
    requires Shape(s) && lpn < |s.maptbl|
    requires Wp(s, io).line < |s.status| && Wp(s, io).next < s.perLine
  {
    var p := NewPage(s, io);
    var mapped := s.(maptbl := s.maptbl[lpn := Some(p)]);
    MarkValid(SetRmap(mapped, p, Some(lpn)), p, v)
  }

  /** A used-up line goes to the full list or, if some of its pages are invalid, to the victims. */
  ghost function Closed(s: Ftl, l: nat): Ftl
    requires l < |s.vpc|
  {
    if s.vpc[l] == s.perLine then s.(fullLines := s.fullLines + [l])
    else s.(victims := s.victims + {l})
  }

  /** `advance_write_pointer`; the first free line takes the place of a used-up one. */
  ghost function Advance(s: Ftl, io: IoType): Ftl
    requires Wp(s, io).line < |s.vpc|
    requires Wp(s, io).next + 1 == s.perLine ==> s.freeLines != []
  {
    var WritePointer(l, o) := Wp(s, io);
    if o + 1 != s.perLine then
      WithWp(s, io, WritePointer(l, o + 1))
    else
      WithWp(Closed(s, l).(freeLines := s.freeLines[1..]), io, WritePointer(s.freeLines[0], 0))
  }

  ghost function Put(s: Ftl, io: IoType, lpn: nat, v: int): Ftl
    requires Shape(s) && lpn < |s.maptbl|
    requires Wp(s, io).line < |s.status| && Wp(s, io).next < s.perLine
    requires Wp(s, io).next + 1 == s.perLine ==> s.freeLines != []
  {
    Advance(Program(s, io, lpn, v), io)
  }

  /** What the host reads back for a logical page. */
  ghost function Read(s: Ftl, lpn: nat): Option<int>
    requires lpn < |s.maptbl|
  {
    match s.maptbl[lpn]
    case None => None
    case Some(p) =>
      if p.line < |s.data| && p.ord < |s.data[p.line]| then Some(s.data[p.line][p.ord]) else None
  }

  /** The logical pages that have been written. */
  ghost function Mapped(s: Ftl): set<nat> {
    set lpn | 0 <= lpn < |s.maptbl| && s.maptbl[lpn].Some?
  }

  // ---------- the invariant ----------

  function Bit(b: bool): nat {
    if b then 1 else 0
  }

  /** In how many places a line is listed; `dangling` is the line GC is cleaning, or -1. */
  ghost function Places(s: Ftl, dangling: int, l: nat): nat {
    Bit(l in s.freeLines) + Bit(l in s.fullLines) + Bit(l in s.victims) +
    Bit(l == s.user.line) + Bit(l == s.gc.line) + Bit(l == dangling)
  }

  /** Every line is in exactly one place. */
  ghost predicate Lists(s: Ftl, dangling: int) {
    && NoDup(s.freeLines) && NoDup(s.fullLines)
    && (forall l :: l in s.freeLines ==> l < |s.status|)
    && (forall l :: l in s.fullLines ==> l < |s.status|)
    && (forall l :: l in s.victims ==> l < |s.status|)
    && s.user.line < |s.status| && s.gc.line < |s.status| && dangling < |s.status|
    && s.user.next < s.perLine && s.gc.next < s.perLine
    && (forall l :: 0 <= l < |s.status| ==> Places(s, dangling, l) == 1)
  }

  /** How many pages of a line have been written since it was last free. */
  ghost function Written(s: Ftl, l: nat): nat {
    if l in s.freeLines then 0
    else if l == s.user.line then s.user.next
    else if l == s.gc.line then s.gc.next
    else s.perLine
  }

  /** A line's pages are free from the write position on and only there, and its counters are exact. */
  ghost predicate LineOk(s: Ftl, l: nat)
    requires Shape(s) && l < |s.status|
  {
    && (forall o :: 0 <= o < s.perLine ==> (s.status[l][o] == Free <==> o >= Written(s, l)))
    && s.vpc[l] == CountIn(s.status[l], 0, s.perLine, Valid)
    && s.ipc[l] == CountIn(s.status[l], 0, s.perLine, Invalid)
    && (l in s.fullLines ==> s.vpc[l] == s.perLine)
    && (l in s.victims ==> s.ipc[l] > 0)
  }

  ghost predicate Lines(s: Ftl)
    requires Shape(s)
  {
    forall l :: 0 <= l < |s.status| ==> LineOk(s, l)
  }

  /** A valid page that GC has not scanned yet. During GC the victim's pages stay PG_VALID. */
  ghost predicate Live(s: Ftl, dangling: int, done: set<nat>, l: nat, o: nat)
    requires Shape(s) && l < |s.status| && o < s.perLine
  {
    s.status[l][o] == Valid && !(l == dangling && o in done)
  }

  ghost predicate MapsBack(s: Ftl, dangling: int, done: set<nat>, lpn: nat)
    requires Shape(s) && lpn < |s.maptbl|
  {
    s.maptbl[lpn].Some? ==>
      var p := s.maptbl[lpn].value;
      InRange(s, p) && Live(s, dangling, done, p.line, p.ord) && s.rmap[p.line][p.ord] == Some(lpn)
  }

  ghost predicate MappedBy(s: Ftl, l: nat, o: nat)
    requires Shape(s) && l < |s.status| && o < s.perLine
  {
    var r := s.rmap[l][o];
    r.Some? && r.value < |s.maptbl| && s.maptbl[r.value] == Some(Page(l, o))
  }

  /** `maptbl` and `rmap` are inverse on exactly the live pages. The entry of `hole` is exempt. */
  ghost predicate Maps(s: Ftl, dangling: int, done: set<nat>, hole: int)
    requires Shape(s)
  {
    && (forall lpn :: 0 <= lpn < |s.maptbl| && lpn != hole ==> MapsBack(s, dangling, done, lpn))
    && (forall l, o :: 0 <= l < |s.status| && 0 <= o < s.perLine && Live(s, dangling, done, l, o) ==> MappedBy(s, l, o))
  }

  /** Everything but the write credits, in every state between page writes. */
  ghost predicate Core(s: Ftl, dangling: int, done: set<nat>, hole: int) {
    Shape(s) && Lists(s, dangling) && Lines(s) && Maps(s, dangling, done, hole)
  }

  /** The pages that can still be written before another line is reclaimed. */
  ghost function Space(s: Ftl): int {
    |s.freeLines| * s.perLine + (s.perLine - s.user.next) + (s.perLine - s.gc.next)
  }

  /** How many more pages one write pointer could write with all the free lines. The last page of its last line
      is not to be written: `get_next_free_line` would have no line to go on with. */
  ghost function Room(s: Ftl, io: IoType): int {
    |s.freeLines| * s.perLine + (s.perLine - Wp(s, io).next)
  }

  /** The state between host page writes, also after a forced GC that found no victim. */
  ghost predicate Going(s: Ftl) {
    Core(s, -1, {}, -1) && s.credits > 0 && 0 < s.refill <= s.perLine
  }

  /** The state between host page writes as long as few enough pages have been written. The last clause is what
      keeps a free line in reserve. */
  ghost predicate Inv(s: Ftl) {
    && Core(s, -1, {}, -1)
    && s.credits > 0
    && 0 < s.refill <= s.perLine
    && Space(s) - s.credits >= 2 * s.perLine + 1
  }
}
