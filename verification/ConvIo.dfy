/** The request loops of `conv_read` and `conv_write` over the partitions of a namespace. */
module ConvIo {
  import opened Arith
  import opened Counting
  import opened Geometry
  import opened FtlModel
  import opened FtlGc
  import opened FtlRuns
  import opened FtlTie
  import opened Striping
  import opened ConvFtl
  import Wrappers

  // ---------- reading ----------

  /** One NAND read command. */
  datatype NandRead = NandRead(part: nat, ppa: Ppa, size: nat)

  /** `is_same_flash_page` of two mapped addresses. */
  predicate SameFlashPage(g: SsdParams, a: Ppa, b: Ppa) {
    && a.Ppa? && b.Ppa?
    && (a.ch, a.lun, a.pl, a.blk) == (b.ch, b.lun, b.pl, b.blk)
    && a.pg / g.pgsPerFlashpg == b.pg / g.pgsPerFlashpg
  }

  /** The number of a page's flash page when all pages are numbered by `ppa2pgidx`. */
  lemma FlashPageOf(g: SsdParams, a: Ppa)
    requires ValidPpa(g, a)
    ensures Div(a.pg, g.pgsPerFlashpg) < g.flashpgsPerBlk
    ensures Div(PgIdx(g, a), g.pgsPerFlashpg) == MulAdd(BlkIdx(g, a), g.flashpgsPerBlk, Div(a.pg, g.pgsPerFlashpg))
  {
    var f, i, k := Div(a.pg, g.pgsPerFlashpg), Mod(a.pg, g.pgsPerFlashpg), g.pgsPerFlashpg;
    PgIdxDigits(g, a);
    SplitMulAdd(a.pg, g.flashpgsPerBlk, k);
    MulAssoc(BlkIdx(g, a), g.flashpgsPerBlk, k);
    Distribute(BlkIdx(g, a) * g.flashpgsPerBlk, f, k);
    DigitsUnique(MulAdd(BlkIdx(g, a), g.flashpgsPerBlk, f), i, k);
  }

  /** Two pages are in the same flash page if and only if their page indexes are in the same run of
      `pgs_per_flashpg`. */
  lemma SameFlashPageExact(g: SsdParams, a: Ppa, b: Ppa)
    requires ValidPpa(g, a) && ValidPpa(g, b)
    ensures SameFlashPage(g, a, b) <==> Div(PgIdx(g, a), g.pgsPerFlashpg) == Div(PgIdx(g, b), g.pgsPerFlashpg)
  {
    hide PgIdx, BlkIdx;
    FlashPageOf(g, a);
    FlashPageOf(g, b);
    var f, h := Div(a.pg, g.pgsPerFlashpg), Div(b.pg, g.pgsPerFlashpg);
    DigitsUnique(BlkIdx(g, a), f, g.flashpgsPerBlk);
    DigitsUnique(BlkIdx(g, b), h, g.flashpgsPerBlk);
    BlkIdxUnique(g, a, b);
  }

  function TotalSize(cmds: seq<NandRead>): nat {
    if cmds == [] then 0 else TotalSize(cmds[..|cmds| - 1]) + cmds[|cmds| - 1].size
  }

  lemma {:induction false} TotalConcat(a: seq<NandRead>, b: seq<NandRead>)
    ensures TotalSize(a + b) == TotalSize(a) + TotalSize(b)
  {
    if b == [] {
      assert a + b == a;
    } else {
      assert (a + b)[..|a + b| - 1] == a + b[..|b| - 1];
      TotalConcat(a, b[..|b| - 1]);
    }
  }

  /** The bytes of `k` pages. */
  function PageBytes(g: SsdParams, k: nat): nat {
    k * g.pgsz
  }

  lemma OneMorePage(g: SsdParams, k: nat)
    ensures PageBytes(g, 0) == 0 && PageBytes(g, k + 1) == PageBytes(g, k) + g.pgsz
    ensures g.pgsz > 0 ==> (PageBytes(g, k) > 0 <==> k > 0)
  {
    Distribute(k, 1, g.pgsz);
    if k > 0 && g.pgsz > 0 {
      PositiveProduct(k, g.pgsz);
    }
  }

  ghost predicate Hit(table: seq<Ppa>, n: nat, x: nat)
    requires n > 0
  {
    Div(x, n) < |table| && table[Div(x, n)].Ppa?
  }

  /** The pages `x <= end` of the lane that starts at `first` that are mapped. */
  ghost predicate InLane(table: seq<Ppa>, n: nat, first: nat, end: nat, x: nat)
    requires n > 0
  {
    first <= x <= end && Lane(n, first, x) == 0 && Hit(table, n, x)
  }

  /** The command reads the logical pages `c`, which are all in one flash page, at the address of the first. */
  ghost predicate ReadsGroup(g: SsdParams, table: seq<Ppa>, n: nat, part: nat, r: NandRead, c: seq<nat>)
    requires n > 0
  {
    && c != [] && r.part == part && r.size == PageBytes(g, |c|)
    && Hit(table, n, c[0]) && r.ppa == table[Div(c[0], n)]
    && forall x :: x in c ==> Mod(x, n) == part && Hit(table, n, x) && SameFlashPage(g, table[Div(x, n)], r.ppa)
  }

  /** The commands read the groups, and neighbouring ones are in different flash pages. */
  ghost predicate Merged(g: SsdParams, table: seq<Ppa>, n: nat, part: nat, cmds: seq<NandRead>, groups: seq<seq<nat>>)
    requires n > 0
  {
    && |cmds| == |groups|
    && (forall k :: 0 <= k < |cmds| ==> ReadsGroup(g, table, n, part, cmds[k], groups[k]))
    && (forall k :: 0 < k < |cmds| ==> !SameFlashPage(g, cmds[k - 1].ppa, cmds[k].ppa))
  }

  /** All groups one after the other. */
  function Flat<T>(groups: seq<seq<T>>): seq<T> {
    if groups == [] then [] else Flat(groups[..|groups| - 1]) + groups[|groups| - 1]
  }

  lemma FlatMore<T>(groups: seq<seq<T>>, c: seq<T>)
    ensures Flat(groups + [c]) == Flat(groups) + c
  {
    assert (groups + [c])[..|groups|] == groups;
  }

  ghost predicate Ascending(s: seq<nat>) {
    forall i, j :: 0 <= i < j < |s| ==> s[i] < s[j]
  }

  /** The pages are those of the lane before `lpn` that are mapped, in order. */
  ghost predicate Seen(table: seq<Ppa>, n: nat, first: nat, end: nat, lpn: nat, pages: seq<nat>)
    requires n > 0
  {
    Ascending(pages) && forall x: nat :: x in pages <==> x < lpn && InLane(table, n, first, end, x)
  }

  /** What the reads of a lane are: the mapped pages in order fall into consecutive groups, as long as the pages are in
      one flash page, and there is one read for each. */
  ghost predicate LaneRead(g: SsdParams, table: seq<Ppa>, n: nat, first: nat, end: nat, cmds: seq<NandRead>,
                           groups: seq<seq<nat>>)
    requires n > 0
  {
    && Merged(g, table, n, Mod(first, n), cmds, groups) && Ascending(Flat(groups))
    && forall x: nat :: x in Flat(groups) <==> InLane(table, n, first, end, x)
  }

  lemma SeenNext(table: seq<Ppa>, n: nat, first: nat, end: nat, lpn: nat, pages: seq<nat>)
    requires n > 0 && first <= lpn <= end && Lane(n, first, lpn) == 0 && Seen(table, n, first, end, lpn, pages)
    ensures Seen(table, n, first, end, lpn + n, if Hit(table, n, lpn) then pages + [lpn] else pages)
    ensures Lane(n, first, lpn + n) == 0 && Mod(lpn + n, n) == Mod(lpn, n)
  {
    LaneStep(n, first, lpn);
    LaneNext(n, first, lpn, lpn + n);
    hide Hit;
    forall i | 0 <= i < |pages|
      ensures pages[i] < lpn
    {
      assert pages[i] in pages;
    }
    forall x | lpn <= x < lpn + n && InLane(table, n, first, end, x)
      ensures x == lpn
    {
      LaneNext(n, first, lpn, x);
    }
  }

  /** The state of the inner loop: the open read is for `group`, `xferSize` bytes of the flash page of `prev`. Until the
      first mapped page `prev` is the address of the first page or unmapped. */
  ghost predicate Reading(g: SsdParams, table: seq<Ppa>, n: nat, part: nat, cmds: seq<NandRead>, groups: seq<seq<nat>>,
                          group: seq<nat>, prev: Ppa, xferSize: nat)
    requires n > 0
  {
    && Merged(g, table, n, part, cmds, groups) && xferSize == PageBytes(g, |group|)
    && (group == [] ==> cmds == [])
    && (group != [] ==> ReadsGroup(g, table, n, part, NandRead(part, prev, xferSize), group))
    && (cmds != [] ==> !SameFlashPage(g, cmds[|cmds| - 1].ppa, prev))
  }

  lemma SameIsSymmetric(g: SsdParams, a: Ppa, b: Ppa)
    ensures SameFlashPage(g, a, b) == SameFlashPage(g, b, a)
    ensures a.Ppa? ==> SameFlashPage(g, a, a)
  {
  }

  lemma GroupStarts(g: SsdParams, table: seq<Ppa>, n: nat, part: nat, x: nat)
    requires n > 0 && Mod(x, n) == part && Hit(table, n, x)
    ensures ReadsGroup(g, table, n, part, NandRead(part, table[Div(x, n)], g.pgsz), [x])
  {
    hide SameFlashPage;
    SameIsSymmetric(g, table[Div(x, n)], table[Div(x, n)]);
    OneMorePage(g, 0);
  }

  /** Another page of the same flash page joins the open read, which may be empty. */
  lemma Joins(g: SsdParams, table: seq<Ppa>, n: nat, part: nat, cmds: seq<NandRead>, groups: seq<seq<nat>>,
              group: seq<nat>, prev: Ppa, xferSize: nat, x: nat)
    requires n > 0 && Reading(g, table, n, part, cmds, groups, group, prev, xferSize)
    requires Mod(x, n) == part && Hit(table, n, x) && SameFlashPage(g, table[Div(x, n)], prev)
    requires group == [] ==> prev == table[Div(x, n)]
    ensures Reading(g, table, n, part, cmds, groups, group + [x], prev, xferSize + g.pgsz)
  {
    hide SameFlashPage, PageBytes, Merged, Hit;
    OneMorePage(g, |group|);
    if group == [] {
      GroupStarts(g, table, n, part, x);
      assert [] + [x] == [x] && xferSize == 0;
    }
  }

  /** The open read is issued. */
  lemma Issued(g: SsdParams, table: seq<Ppa>, n: nat, part: nat, cmds: seq<NandRead>, groups: seq<seq<nat>>,
               group: seq<nat>, prev: Ppa, xferSize: nat)
    requires n > 0 && Reading(g, table, n, part, cmds, groups, group, prev, xferSize) && group != []
    ensures Merged(g, table, n, part, cmds + [NandRead(part, prev, xferSize)], groups + [group])
  {
    hide SameFlashPage, PageBytes, ReadsGroup;
  }

  /** A page of another flash page opens a new read. */
  lemma Opens(g: SsdParams, table: seq<Ppa>, n: nat, part: nat, cmds: seq<NandRead>, groups: seq<seq<nat>>,
              group: seq<nat>, prev: Ppa, xferSize: nat, x: nat)
    requires n > 0 && Reading(g, table, n, part, cmds, groups, group, prev, xferSize)
    requires Mod(x, n) == part && Hit(table, n, x) && !SameFlashPage(g, table[Div(x, n)], prev)
    ensures if group == [] then Reading(g, table, n, part, cmds, groups, [x], table[Div(x, n)], g.pgsz)
            else Reading(g, table, n, part, cmds + [NandRead(part, prev, xferSize)], groups + [group], [x],
                         table[Div(x, n)], g.pgsz)
  {
    GroupStarts(g, table, n, part, x);
    OneMorePage(g, 0);
    SameIsSymmetric(g, table[Div(x, n)], prev);
    if group != [] {
      Issued(g, table, n, part, cmds, groups, group, prev, xferSize);
    }
    hide SameFlashPage, PageBytes, Merged, ReadsGroup;
  }

  /** Something has been collected exactly when there is something to transfer. */
  lemma AnyBytes(g: SsdParams, table: seq<Ppa>, n: nat, part: nat, cmds: seq<NandRead>, groups: seq<seq<nat>>,
                 group: seq<nat>, prev: Ppa, xferSize: nat)
    requires n > 0 && g.pgsz > 0 && Reading(g, table, n, part, cmds, groups, group, prev, xferSize)
    ensures xferSize > 0 <==> group != []
    ensures group != [] ==> prev.Ppa?
  {
    OneMorePage(g, |group|);
    hide PageBytes, Merged;
  }

  /** The inner loop of `conv_read`: every `n`-th page from `first` on, all in one partition. Reads of the
      same flash page are merged. An unmapped page is skipped. */
  method ReadLane(g: SsdParams, table: array<Ppa>, n: nat, first: nat, end: nat)
    returns (cmds: seq<NandRead>, ghost groups: seq<seq<nat>>)
    requires n > 0 && g.pgsz > 0 && first <= end && Div(end, n) < table.Length
    ensures LaneRead(g, table[..], n, first, end, cmds, groups)
  {
    hide Div, Mod, PageBytes, Lane, InLane, SameFlashPage, Merged, ReadsGroup, Reading, Seen, LaneRead, Flat;
    cmds, groups := [], [];
    InTable(n, first, end, table.Length);
    var xferSize: nat := 0;
    var part, prev := Mod(first, n), table[Div(first, n)];
    var lpn: nat := first;
    ghost var group: seq<nat> := [];
    ghost var pages: seq<nat> := [];
    StartReading(g, table[..], n, first, end, prev);
    while lpn <= end
      invariant first <= lpn && Lane(n, first, lpn) == 0 && Mod(lpn, n) == part
      invariant Reading(g, table[..], n, part, cmds, groups, group, prev, xferSize)
      invariant group == [] && prev.Ppa? ==> lpn == first && prev == table[Div(first, n)]
      invariant Seen(table[..], n, first, end, lpn, pages) && pages == Flat(groups) + group
      decreases end + n - lpn
    {
      InTable(n, lpn, end, table.Length);
      SeenNext(table[..], n, first, end, lpn, pages);
      AnyBytes(g, table[..], n, part, cmds, groups, group, prev, xferSize);
      var cur := table[Div(lpn, n)];
      if cur.Ppa? {
        ghost var was := group;
        if prev.Ppa? && SameFlashPage(g, cur, prev) {
          Joins(g, table[..], n, part, cmds, groups, group, prev, xferSize, lpn);
          xferSize := xferSize + g.pgsz;
          group := group + [lpn];
        } else {
          NotTheSame(g, cur, prev);
          Opens(g, table[..], n, part, cmds, groups, group, prev, xferSize, lpn);
          FlatMore(groups, group);
          if xferSize > 0 {
            cmds, groups := cmds + [NandRead(part, prev, xferSize)], groups + [group];
          }
          xferSize := g.pgsz;
          prev := cur;
          group := [lpn];
        }
        pages := pages + [lpn];
      }
      lpn := lpn + n;
    }
    AnyBytes(g, table[..], n, part, cmds, groups, group, prev, xferSize);
    Finished(g, table[..], n, first, end, lpn, cmds, groups, group, pages, prev, xferSize);
    if xferSize > 0 {
      cmds, groups := cmds + [NandRead(part, prev, xferSize)], groups + [group];
    }
  }

  lemma InTable(n: nat, lpn: nat, end: nat, pages: nat)
    requires n > 0 && lpn <= end && Div(end, n) < pages
    ensures Div(lpn, n) < pages
  {
    StripeBound(n, lpn, end, pages);
  }

  lemma NotTheSame(g: SsdParams, cur: Ppa, prev: Ppa)
    ensures !prev.Ppa? ==> !SameFlashPage(g, cur, prev)
  {
  }

  lemma StartReading(g: SsdParams, table: seq<Ppa>, n: nat, first: nat, end: nat, prev: Ppa)
    requires n > 0
    ensures Reading(g, table, n, Mod(first, n), [], [], [], prev, 0) && Seen(table, n, first, end, first, [])
    ensures Lane(n, first, first) == 0 && Flat<nat>([]) == []
  {
    OneMorePage(g, 0);
    LaneStart(n, first, 0);
  }

  lemma Finished(g: SsdParams, table: seq<Ppa>, n: nat, first: nat, end: nat, lpn: nat, cmds: seq<NandRead>,
                 groups: seq<seq<nat>>, group: seq<nat>, pages: seq<nat>, prev: Ppa, xferSize: nat)
    requires n > 0 && lpn > end && Seen(table, n, first, end, lpn, pages) && pages == Flat(groups) + group
    requires Reading(g, table, n, Mod(first, n), cmds, groups, group, prev, xferSize)
    ensures if group == [] then LaneRead(g, table, n, first, end, cmds, groups)
            else LaneRead(g, table, n, first, end, cmds + [NandRead(Mod(first, n), prev, xferSize)], groups + [group])
  {
    FlatMore(groups, group);
    if group != [] {
      Issued(g, table, n, Mod(first, n), cmds, groups, group, prev, xferSize);
    }
    assert group == [] ==> Flat(groups) == pages;
    hide Merged, ReadsGroup, Flat, Ascending;
  }

  // ---------- how much is read ----------

  lemma {:induction false} GroupsSize(g: SsdParams, table: seq<Ppa>, n: nat, part: nat, cmds: seq<NandRead>,
                                      groups: seq<seq<nat>>)
    requires n > 0 && Merged(g, table, n, part, cmds, groups)
    ensures TotalSize(cmds) == PageBytes(g, |Flat(groups)|)
  {
    if cmds == [] {
      OneMorePage(g, 0);
    } else {
      var k := |cmds| - 1;
      assert ReadsGroup(g, table, n, part, cmds[k], groups[k]);
      GroupsSize(g, table, n, part, cmds[..k], groups[..k]);
      Distribute(|Flat(groups[..k])|, |groups[k]|, g.pgsz);
    }
  }

  /** The bytes read in a lane are those of its pages. */
  lemma LaneSize(g: SsdParams, table: seq<Ppa>, n: nat, first: nat, end: nat, cmds: seq<NandRead>, groups: seq<seq<nat>>)
    requires n > 0 && LaneRead(g, table, n, first, end, cmds, groups)
    ensures TotalSize(cmds) == |Elements(Flat(groups))| * g.pgsz
    ensures forall x: nat :: x in Elements(Flat(groups)) <==> InLane(table, n, first, end, x)
  {
    hide Merged, InLane, Flat;
    GroupsSize(g, table, n, Mod(first, n), cmds, groups);
    NoDupSize(Flat(groups));
  }

  // ---------- whole requests ----------

  /** The mapping tables of all partitions. */
  ghost predicate Tables(g: SsdParams, tables: seq<seq<Ppa>>) {
    |tables| > 0 && forall i :: 0 <= i < |tables| ==> |tables[i]| == g.ttPgs
  }

  /** Page `x` of the namespace has been written. */
  ghost predicate IsMapped(tables: seq<seq<Ppa>>, x: nat) {
    |tables| > 0 && Hit(tables[Mod(x, |tables|)], |tables|, x)
  }

  /** The reads of the first `i` lanes, in the order of the outer loop: lane `j` is every `n`-th page from page
      `start + j` on, and is read in the partition of that page. */
  ghost predicate LanesRead(g: SsdParams, tables: seq<seq<Ppa>>, start: nat, end: nat, i: nat, cmds: seq<NandRead>,
                            lanes: seq<seq<NandRead>>, groups: seq<seq<seq<nat>>>)
    requires |tables| > 0
  {
    && |lanes| == |groups| == i && cmds == Flat(lanes)
    && forall j: nat :: j < i ==>
         LaneRead(g, tables[Mod(start + j, |tables|)], |tables|, start + j, end, lanes[j], groups[j])
  }

  lemma LanesMore(g: SsdParams, tables: seq<seq<Ppa>>, start: nat, end: nat, i: nat, cmds: seq<NandRead>,
                  lanes: seq<seq<NandRead>>, groups: seq<seq<seq<nat>>>, lane: seq<NandRead>, laneGroups: seq<seq<nat>>)
    requires |tables| > 0 && LanesRead(g, tables, start, end, i, cmds, lanes, groups)
    requires LaneRead(g, tables[Mod(start + i, |tables|)], |tables|, start + i, end, lane, laneGroups)
    ensures LanesRead(g, tables, start, end, i + 1, cmds + lane, lanes + [lane], groups + [laneGroups])
  {
    hide LaneRead;
    FlatMore(lanes, lane);
    hide Flat;
  }

  /** The mapped pages of the request in the first `i` lanes. */
  ghost predicate LanesSeen(tables: seq<seq<Ppa>>, start: nat, end: nat, i: nat, seen: set<nat>)
    requires |tables| > 0
  {
    forall x: nat :: x in seen <==> start <= x <= end && Lane(|tables|, start, x) < i && IsMapped(tables, x)
  }

  /** Lane `i` of a request is lane 0 from its first page on. */
  lemma LaneShift(n: nat, start: nat, i: nat, x: nat)
    requires i < n && start <= x
    ensures Lane(n, start, x) == i <==> start + i <= x && Lane(n, start + i, x) == 0
    ensures start + i <= x && Lane(n, start + i, x) == 0 ==> x % n == (start + i) % n
  {
    LaneStart(n, start, i);
    LaneFirst(n, start, x);
    if start + i <= x {
      LaneStart(n, start + i, 0);
      if Lane(n, start, x) == i {
        ShiftBy(n, start, i, x);
      }
      if Lane(n, start + i, x) == 0 {
        LaneNext(n, start + i, start + i, x);
        ShiftBack(n, start, i, x);
      }
    }
  }

  lemma ShiftBy(n: nat, start: nat, i: nat, x: nat)
    requires i < n && start + i <= x && Lane(n, start, x) == i
    ensures Lane(n, start + i, x) == 0
  {
    var q := Div(x - start, n);
    assert x - start == q * n + i;
    DigitsUnique(q, 0, n);
  }

  lemma ShiftBack(n: nat, start: nat, i: nat, x: nat)
    requires i < n && start + i <= x && Lane(n, start + i, x) == 0
    ensures Lane(n, start, x) == i
  {
    var q := Div(x - (start + i), n);
    assert x - (start + i) == q * n;
    DigitsUnique(q, i, n);
  }

  lemma LaneSeen(g: SsdParams, tables: seq<seq<Ppa>>, start: nat, end: nat, i: nat, seen: set<nat>, laneSeen: set<nat>)
    requires Tables(g, tables) && i < |tables| && LanesSeen(tables, start, end, i, seen)
    requires forall x: nat :: x in laneSeen <==> InLane(tables[Mod(start + i, |tables|)], |tables|, start + i, end, x)
    ensures LanesSeen(tables, start, end, i + 1, seen + laneSeen) && seen !! laneSeen
  {
    var n := |tables|;
    forall x: nat
      ensures x in laneSeen <==> start <= x <= end && Lane(n, start, x) == i && IsMapped(tables, x)
    {
      if start <= x {
        LaneShift(n, start, i, x);
      }
    }
    hide IsMapped, InLane, Lane;
  }

  lemma AddSizes(g: SsdParams, cmds: seq<NandRead>, lane: seq<NandRead>, seen: set<nat>, laneSeen: set<nat>)
    requires seen !! laneSeen && TotalSize(cmds) == |seen| * g.pgsz && TotalSize(lane) == |laneSeen| * g.pgsz
    ensures TotalSize(cmds + lane) == |seen + laneSeen| * g.pgsz
  {
    TotalConcat(cmds, lane);
    assert |seen + laneSeen| == |seen| + |laneSeen|;
    Distribute(|seen|, |laneSeen|, g.pgsz);
  }

  /** The tables as values. */
  ghost function Values(tables: seq<array<Ppa>>): (v: seq<seq<Ppa>>)
    reads tables
  {
    seq(|tables|, i requires 0 <= i < |tables| reads tables => tables[i][..])
  }

  /** `conv_read`: the NAND reads for a request of `nrLba` sectors from `lba` on, given the mapping tables of
      the partitions. It fails when the request ends beyond the tables. */
  method ConvRead(g: SsdParams, tables: seq<array<Ppa>>, lba: nat, nrLba: nat)
    returns (ok: bool, cmds: seq<NandRead>, ghost lanes: seq<seq<NandRead>>, ghost groups: seq<seq<seq<nat>>>,
             ghost seen: set<nat>)
    requires g.secsPerPg > 0 && g.pgsz > 0 && nrLba > 0 && Tables(g, Values(tables))
    ensures ok <==> (lba + nrLba - 1) / g.secsPerPg / |tables| < g.ttPgs
    ensures ok ==>
      var start, end := lba / g.secsPerPg, (lba + nrLba - 1) / g.secsPerPg;
      && start <= end
      && LanesRead(g, Values(tables), start, end, Min(|tables|, end + 1 - start), cmds, lanes, groups)
      && TotalSize(cmds) == |seen| * g.pgsz
      && forall x: nat :: x in seen <==> start <= x <= end && IsMapped(Values(tables), x)
  {
    hide LanesRead, LaneRead, LanesSeen, IsMapped, InLane, Lane, TotalSize, Elements, Flat;
    cmds, lanes, groups, seen := [], [], [], {};
    ghost var v := Values(tables);
    var nrParts := |tables|;
    var start, end := lba / g.secsPerPg, (lba + nrLba - 1) / g.secsPerPg;
    PageOrder(lba, lba + nrLba - 1, g.secsPerPg);
    if end / nrParts >= g.ttPgs {
      return false, [], [], [], {};
    }
    ok := true;
    var i: nat, startLpn: nat := 0, start;
    NoneRead(g, v, start, end);
    while i < nrParts && startLpn <= end
      invariant i <= nrParts && startLpn == start + i <= end + 1
      invariant LanesRead(g, v, start, end, i, cmds, lanes, groups)
      invariant TotalSize(cmds) == |seen| * g.pgsz && LanesSeen(v, start, end, i, seen)
    {
      var part := startLpn % nrParts;
      assert tables[part][..] == v[part];
      var lane;
      ghost var laneGroups;
      lane, laneGroups := ReadLane(g, tables[part], nrParts, startLpn, end);
      LaneSize(g, v[part], nrParts, startLpn, end, lane, laneGroups);
      LaneSeen(g, v, start, end, i, seen, Elements(Flat(laneGroups)));
      AddSizes(g, cmds, lane, seen, Elements(Flat(laneGroups)));
      LanesMore(g, v, start, end, i, cmds, lanes, groups, lane, laneGroups);
      cmds, lanes, groups := cmds + lane, lanes + [lane], groups + [laneGroups];
      seen := seen + Elements(Flat(laneGroups));
      i, startLpn := i + 1, startLpn + 1;
    }
    AllLanes(v, start, end, i, seen);
  }

  lemma PageOrder(a: nat, b: nat, k: nat)
    requires k > 0 && a <= b
    ensures a / k <= b / k
  {
    var p, q := Div(a, k), Div(b, k);
    assert a == p * k + a % k && b == q * k + b % k;
    if q < p {
      MulMono(q + 1, p, k);
      Distribute(q, 1, k);
      assert false;
    }
  }

  lemma NoneRead(g: SsdParams, tables: seq<seq<Ppa>>, start: nat, end: nat)
    requires |tables| > 0
    ensures LanesRead(g, tables, start, end, 0, [], [], []) && LanesSeen(tables, start, end, 0, {})
    ensures TotalSize([]) == 0
  {
  }

  lemma AllLanes(tables: seq<seq<Ppa>>, start: nat, end: nat, i: nat, seen: set<nat>)
    requires |tables| > 0 && LanesSeen(tables, start, end, i, seen) && (i >= |tables| || start + i > end)
    ensures forall x: nat :: x in seen <==> start <= x <= end && IsMapped(tables, x)
  {
    forall x: nat | start <= x <= end
      ensures Lane(|tables|, start, x) < i
    {
      LaneFirst(|tables|, start, x);
    }
  }

  lemma {:induction false} InFlat<T>(groups: seq<seq<T>>, x: T) returns (k: nat)
    requires x in Flat(groups)
    ensures k < |groups| && x in groups[k]
  {
    k := |groups| - 1;
    if x !in groups[k] {
      k := InFlat(groups[..k], x);
    }
  }

  lemma {:induction false} FlatHas<T>(groups: seq<seq<T>>, i: nat, x: T)
    requires i < |groups| && x in groups[i]
    ensures x in Flat(groups)
  {
    if i < |groups| - 1 {
      FlatHas(groups[..|groups| - 1], i, x);
    }
  }

  /** Every page of the request that has been written is read by one of the commands, in its partition. */
  lemma PageIsRead(g: SsdParams, tables: seq<seq<Ppa>>, start: nat, end: nat, cmds: seq<NandRead>,
                   lanes: seq<seq<NandRead>>, groups: seq<seq<seq<nat>>>, x: nat) returns (i: nat, k: nat)
    requires |tables| > 0 && start <= x <= end && IsMapped(tables, x)
    requires LanesRead(g, tables, start, end, Min(|tables|, end + 1 - start), cmds, lanes, groups)
    ensures i < |lanes| == |groups| && k < |lanes[i]| == |groups[i]| && x in groups[i][k] && lanes[i][k] in cmds
    ensures var part := Mod(x, |tables|); ReadsGroup(g, tables[part], |tables|, part, lanes[i][k], groups[i][k])
  {
    hide ReadsGroup, Flat, Ascending;
    var n := |tables|;
    i := Lane(n, start, x);
    LaneFirst(n, start, x);
    LaneShift(n, start, i, x);
    assert LaneRead(g, tables[Mod(start + i, n)], n, start + i, end, lanes[i], groups[i]);
    assert InLane(tables[Mod(start + i, n)], n, start + i, end, x);
    hide Lane, InLane;
    k := InFlat(groups[i], x);
    FlatHas(lanes, i, lanes[i][k]);
  }

  // ---------- writing ----------

  /** The objects of all partitions. */
  ghost function Reprs(parts: seq<ConvFtl>): set<object> {
    set i, o | 0 <= i < |parts| && o in parts[i].Repr() :: o
  }

  ghost predicate Separated(g: SsdParams, parts: seq<ConvFtl>) {
    && (forall i, j :: 0 <= i < j < |parts| ==> parts[i].Repr() !! parts[j].Repr())
    && (forall i :: 0 <= i < |parts| ==> parts[i] in parts[i].Repr() && parts[i].g == g)
  }

  /** The partitions share nothing, have the same geometry and are in order. */
  ghost predicate Partitions(g: SsdParams, parts: seq<ConvFtl>)
    reads Reprs(parts)
  {
    && |parts| > 0
    && Separated(g, parts)
    && (forall i :: 0 <= i < |parts| ==> parts[i].Valid())
  }

  /** The tables of partitions in order say which pages have been written, and every mapped address is a
      valid one, so the `valid_ppa` test of `conv_read` never skips a page. */
  lemma MappedPages(g: SsdParams, parts: seq<ConvFtl>, x: nat)
    requires |parts| > 0 && Partitions(g, parts) && Div(x, |parts|) < g.ttPgs
    ensures var part := parts[Mod(x, |parts|)];
      && part.maptbl.Length == g.ttPgs
      && (part.maptbl[Div(x, |parts|)].Ppa? <==> Div(x, |parts|) in Mapped(part.st))
      && (part.maptbl[Div(x, |parts|)].Ppa? ==> ValidPpa(g, part.maptbl[Div(x, |parts|)]))
  {
    PartAt(g, parts, Mod(x, |parts|));
    MappedIn(g, parts[Mod(x, |parts|)], Div(x, |parts|));
  }

  lemma MappedIn(g: SsdParams, part: ConvFtl, y: nat)
    requires part.g == g && part.Valid() && y < g.ttPgs
    ensures part.maptbl.Length == g.ttPgs
    ensures part.maptbl[y].Ppa? <==> y in Mapped(part.st)
    ensures part.maptbl[y].Ppa? ==> ValidPpa(g, part.maptbl[y])
  {
    assert part.maptbl[..][y] == ToPpa(g, part.st.maptbl[y]);
    assert MapsBack(part.st, -1, {}, y);
    if part.st.maptbl[y].Some? {
      var page := part.st.maptbl[y].value;
      WriteOrderOnto(g, page.line, page.ord);
    }
  }

  /** The partitions as values. */
  ghost function States(parts: seq<ConvFtl>): (v: seq<Ftl>)
    reads parts
    ensures |v| == |parts| && forall i :: 0 <= i < |parts| ==> v[i] == parts[i].st
  {
    seq(|parts|, i requires 0 <= i < |parts| reads parts => parts[i].st)
  }

  /** The pages of a request from `lpn` to `end` that belong to partition `i`. */
  ghost function Pending(n: nat, i: nat, lpn: nat, end: nat): (p: set<nat>)
    requires n > 0
    ensures forall x :: x in p <==> lpn <= x <= end && Mod(x, n) == i
  {
    set x | lpn <= x <= end && Mod(x, n) == i
  }

  /** `t` may follow `s` when page `y` is written: GC may take any victim with the fewest valid pages. */
  ghost predicate Served(g: SsdParams, s: Ftl, t: Ftl, y: nat, v: int) {
    && Going(s) && SizesOk(g, s) && y < g.ttPgs && PageFits(s, y, v) && ScansLine(ScanList(g), s.perLine)
    && exists victim :: MayTake(HostWrite(s, y, v), victim) && t == Replenish(HostWrite(s, y, v), victim, ScanList(g))
  }

  /** The pages from `lpn` to `end` can be written one after the other, whichever victims are taken: no page and no GC
      on the way uses up a line while no line is free. */
  ghost predicate CanServe(g: SsdParams, states: seq<Ftl>, lpn: nat, end: nat, data: nat -> int)
    requires |states| > 0
    decreases end + 1 - lpn
  {
    lpn <= end ==>
      var k, y := Mod(lpn, |states|), Div(lpn, |states|);
      && Going(states[k]) && y < |states[k].maptbl| && PageFits(states[k], y, data(lpn))
      && forall t :: Served(g, states[k], t, y, data(lpn)) ==> CanServe(g, states[k := t], lpn + 1, end, data)
  }

  /** Why a partition can take the pages `todo`: either its reserve is kept because they are among the local pages
      `written`, no more than GC can always make room for, or there is space enough for all of them. */
  ghost predicate Sustains(g: SsdParams, n: nat, s: Ftl, written: set<nat>, todo: set<nat>)
    requires n > 0
  {
    || (Inv(s) && AllowedIn(g, s, written) && forall x :: x in todo ==> Div(x, n) in written)
    || Space(s) >= 2 * s.perLine + 1 + |todo|
  }

  /** Every partition can take its part of the pages from `lpn` to `end`. */
  ghost predicate Allowed(g: SsdParams, states: seq<Ftl>, written: seq<set<nat>>, lpn: nat, end: nat) {
    && |written| == |states| > 0
    && (forall i :: 0 <= i < |states| ==>
          Sustains(g, |states|, states[i], written[i], Pending(|states|, i, lpn, end)))
  }

  ghost predicate SizesOk(g: SsdParams, s: Ftl) {
    (|s.maptbl|, |s.status|, s.perLine) == (g.ttPgs, g.ttLines, g.pgsPerLine)
  }

  ghost predicate AllowedIn(g: SsdParams, s: Ftl, written: set<nat>) {
    Mapped(s) <= written && |written| <= (g.ttLines - 4) * g.pgsPerLine
  }

  /** What page `y` of partition `i` reads after the pages of a request before `lpn` have been written. */
  ghost predicate Reads(n: nat, start: nat, lpn: nat, data: nat -> int, s: Ftl, t: Ftl, i: nat, y: nat) {
    && y < |s.maptbl| && y < |t.maptbl|
    && Read(t, y) == if start <= Global(n, i, y) < lpn then Wrappers.Some(data(Global(n, i, y))) else Read(s, y)
  }

  /** The pages of the request before `lpn` read the new data, all others what they read before. */
  ghost predicate WrittenTo(g: SsdParams, start: nat, lpn: nat, data: nat -> int, was: seq<Ftl>, now: seq<Ftl>) {
    && |was| == |now|
    && (forall i, y :: 0 <= i < |now| && 0 <= y < g.ttPgs ==> Reads(|now|, start, lpn, data, was[i], now[i], i, y))
  }

  /** Only partition `k` has changed. */
  ghost predicate OnlyAt(now: seq<Ftl>, next: seq<Ftl>, k: nat) {
    |next| == |now| && k < |now| && forall i :: 0 <= i < |now| && i != k ==> next[i] == now[i]
  }

  /** Page `y` reads `v`, every other page what it read before; at most one page of space has been used. */
  ghost predicate PageWritten(g: SsdParams, s: Ftl, t: Ftl, y: nat, v: int) {
    && SizesOk(g, s) && SizesOk(g, t)
    && Mapped(t) == Mapped(s) + {y} && Space(t) >= Space(s) - 1 && (Inv(s) && FewWritten(s, y) ==> Inv(t))
    && (forall x :: 0 <= x < g.ttPgs ==> Read(t, x) == if x == y then Wrappers.Some(v) else Read(s, x))
  }

  lemma SameSizes(g: SsdParams, s: Ftl, t: Ftl, y: nat, v: int)
    requires PageWritten(g, s, t, y, v)
    ensures |s.maptbl| == |t.maptbl| == g.ttPgs
  {
    hide Mapped, Space, Inv, FewWritten, Read;
  }

  lemma WrittenNext(g: SsdParams, start: nat, lpn: nat, data: nat -> int, was: seq<Ftl>, now: seq<Ftl>, next: seq<Ftl>, k: nat)
    requires WrittenTo(g, start, lpn, data, was, now) && start <= lpn && |next| == |now| > 0
    requires k == Mod(lpn, |now|)
    requires OnlyAt(now, next, k) && PageWritten(g, now[k], next[k], Div(lpn, |now|), data(lpn))
    ensures WrittenTo(g, start, lpn + 1, data, was, next)
  {
    hide Mapped, Space, Inv, SizesOk, FewWritten, Read;
    var n := |now|;
    StripeInverse(n, lpn);
    SameSizes(g, now[k], next[k], Div(lpn, n), data(lpn));
    var after := lpn + 1;
    forall i, y | 0 <= i < n && 0 <= y < g.ttPgs
      ensures Reads(n, start, after, data, was[i], next[i], i, y)
    {
      assert Reads(n, start, lpn, data, was[i], now[i], i, y);
      StripeOnto(n, i, y);
    }
  }

  lemma PartAt(g: SsdParams, parts: seq<ConvFtl>, k: nat)
    requires Partitions(g, parts) && k < |parts|
    ensures parts[k] in parts[k].Repr() && parts[k].g == g && parts[k].Valid()
    ensures parts[k].Repr() <= Reprs(parts)
    ensures forall i :: 0 <= i < |parts| && i != k ==> parts[i].Repr() !! parts[k].Repr() && parts[i] !in parts[k].Repr()
  {
    hide ConvFtl.Valid, ConvFtl.Repr;
    forall i | 0 <= i < |parts| && i != k
      ensures parts[i].Repr() !! parts[k].Repr()
    {
      assert if i < k then parts[i].Repr() !! parts[k].Repr() else parts[k].Repr() !! parts[i].Repr();
    }
  }

  /** Writing page `y` of partition `k` keeps every partition in order and changes the state of one. */
  method WriteOne(g: SsdParams, parts: seq<ConvFtl>, k: nat, y: nat, ghost v: int)
    requires k < |parts| && Partitions(g, parts) && y < g.ttPgs
    requires Going(parts[k].st) && y < |parts[k].st.maptbl| && PageFits(parts[k].st, y, v)
    modifies Reprs(parts)
    ensures Partitions(g, parts)
    ensures forall i :: 0 <= i < |parts| && i != k ==> parts[i].st == old(parts[i].st)
    ensures Served(g, old(parts[k].st), parts[k].st, y, v)
  {
    hide ConvFtl.Valid, Inv, HostWrite, Replenish, MayTake, GcFits, PageFits, Space, Read, Mapped, FewWritten, Separated,
         Reprs, Core, ScansLine;
    var part := parts[k];
    PartAt(g, parts, k);
    MapSize(g, part);
    ghost var victim := part.WritePage(y, v);
    MapSize(g, part);
    forall i | 0 <= i < |parts|
      ensures parts[i].Valid()
    {
      if i != k {
        assert parts[i].Repr() !! part.Repr();
      }
    }
  }

  /** What a page write does to its partition. */
  lemma ServedPage(g: SsdParams, s: Ftl, t: Ftl, y: nat, v: int)
    requires Served(g, s, t, y, v)
    ensures Going(t) && PageWritten(g, s, t, y, v)
  {
    hide Core, Replenish, HostWrite, MayTake, GcFits, ScansLine, Space, Read, Mapped, Inv, FewWritten;
    var victim :| MayTake(HostWrite(s, y, v), victim) && t == Replenish(HostWrite(s, y, v), victim, ScanList(g));
    WriteEffect(s, y, v, victim, ScanList(g));
  }

  lemma MapSize(g: SsdParams, part: ConvFtl)
    requires part.Valid() && part.g == g
    ensures |part.st.maptbl| == g.ttPgs && |part.st.status| == g.ttLines && part.st.perLine == g.pgsPerLine
  {
    hide Going;
  }

  /** The page after a request. */
  function Behind(start: nat, end: nat): nat {
    if start <= end then end + 1 else start
  }

  /** The loop of `conv_write`: exactly the pages of the request are remapped, each in its partition, and
      read the new data. The partitions can take more pages afterwards if they could before. */
  method ConvWrite(g: SsdParams, parts: seq<ConvFtl>, start: nat, end: nat, ghost data: nat -> int)
    requires |parts| > 0 && Partitions(g, parts) && CanServe(g, States(parts), start, end, data)
    requires Div(end, |parts|) < g.ttPgs
    modifies Reprs(parts)
    ensures Partitions(g, parts)
    ensures WrittenTo(g, start, Behind(start, end), data, old(States(parts)), States(parts))
    ensures forall written :: Allowed(g, old(States(parts)), written, start, end) ==>
              Allowed(g, States(parts), written, Behind(start, end), end)
  {
    hide Allowed, WrittenTo, Partitions, Reprs, CanServe, Served, PageFits, Going;
    var lpn := start;
    PartSizes(g, parts);
    NoneWritten(g, start, data, States(parts));
    while lpn <= end
      invariant start <= lpn <= Behind(start, end)
      invariant Partitions(g, parts) && CanServe(g, States(parts), lpn, end, data)
      invariant WrittenTo(g, start, lpn, data, old(States(parts)), States(parts))
      invariant forall written :: Allowed(g, old(States(parts)), written, start, end) ==>
                  Allowed(g, States(parts), written, lpn, end)
      decreases end + 1 - lpn
    {
      StripeBound(|parts|, lpn, end, g.ttPgs);
      var k := Mod(lpn, |parts|);
      ghost var now := States(parts);
      CanServeFits(g, now, lpn, end, data);
      WriteOne(g, parts, k, Div(lpn, |parts|), data(lpn));
      ServedNext(g, now, States(parts), start, lpn, end, data, old(States(parts)));
      lpn := lpn + 1;
    }
  }

  lemma CanServeFits(g: SsdParams, states: seq<Ftl>, lpn: nat, end: nat, data: nat -> int)
    requires |states| > 0 && CanServe(g, states, lpn, end, data) && lpn <= end
    ensures var s, y := states[Mod(lpn, |states|)], Div(lpn, |states|);
      Going(s) && y < |s.maptbl| && PageFits(s, y, data(lpn))
  {
    hide Going, PageFits, Served;
  }

  /** One more page of the request has been written. */
  lemma ServedNext(g: SsdParams, now: seq<Ftl>, next: seq<Ftl>, start: nat, lpn: nat, end: nat, data: nat -> int,
                   was: seq<Ftl>)
    requires |next| == |now| > 0 && start <= lpn <= end
    requires CanServe(g, now, lpn, end, data) && WrittenTo(g, start, lpn, data, was, now)
    requires OnlyAt(now, next, Mod(lpn, |now|))
    requires Served(g, now[Mod(lpn, |now|)], next[Mod(lpn, |now|)], Div(lpn, |now|), data(lpn))
    ensures CanServe(g, next, lpn + 1, end, data) && WrittenTo(g, start, lpn + 1, data, was, next)
    ensures forall written :: Allowed(g, now, written, lpn, end) ==> Allowed(g, next, written, lpn + 1, end)
  {
    hide Served, WrittenTo, PageWritten, Allowed, Going, PageFits;
    var k, y := Mod(lpn, |now|), Div(lpn, |now|);
    assert next == now[k := next[k]];
    ServedPage(g, now[k], next[k], y, data(lpn));
    WrittenNext(g, start, lpn, data, was, now, next, k);
    forall written | Allowed(g, now, written, lpn, end)
      ensures Allowed(g, next, written, lpn + 1, end)
    {
      StillAllowed(g, now, next, written, lpn, end, data(lpn));
    }
  }

  /** A sufficient condition on the request: every partition stays within the pages that GC can always make room for,
      or has space for all its pages. */
  lemma {:induction false} AllowedServes(g: SsdParams, states: seq<Ftl>, written: seq<set<nat>>, lpn: nat, end: nat,
                                         data: nat -> int)
    requires |states| > 0 && Allowed(g, states, written, lpn, end) && Div(end, |states|) < g.ttPgs
    requires forall i :: 0 <= i < |states| ==> Going(states[i]) && SizesOk(g, states[i])
    ensures CanServe(g, states, lpn, end, data)
    decreases end + 1 - lpn
  {
    hide Allowed, Going, PageFits, Served, PageWritten, SizesOk;
    if lpn <= end {
      var n, k, y, v := |states|, Mod(lpn, |states|), Div(lpn, |states|), data(lpn);
      StripeBound(n, lpn, end, g.ttPgs);
      RoomForPage(g, states, written, lpn, end, v);
      forall t | Served(g, states[k], t, y, v)
        ensures CanServe(g, states[k := t], lpn + 1, end, data)
      {
        ServedPage(g, states[k], t, y, v);
        WrittenSizes(g, states[k], t, y, v);
        StillAllowed(g, states, states[k := t], written, lpn, end, v);
        AllowedServes(g, states[k := t], written, lpn + 1, end, data);
      }
    }
  }

  lemma WrittenSizes(g: SsdParams, s: Ftl, t: Ftl, y: nat, v: int)
    requires PageWritten(g, s, t, y, v)
    ensures SizesOk(g, t)
  {
    hide Mapped, Space, Inv, FewWritten, Read;
  }

  /** The partition of a page of the request has space for it. */
  lemma RoomForPage(g: SsdParams, states: seq<Ftl>, written: seq<set<nat>>, lpn: nat, end: nat, v: int)
    requires Allowed(g, states, written, lpn, end) && lpn <= end && Div(lpn, |states|) < g.ttPgs
    requires Going(states[Mod(lpn, |states|)]) && SizesOk(g, states[Mod(lpn, |states|)])
    ensures var s, y := states[Mod(lpn, |states|)], Div(lpn, |states|); y < |s.maptbl| && PageFits(s, y, v)
  {
    hide Space, Inv, Mapped, Going, PageFits, Room;
    var n, k := |states|, Mod(lpn, |states|);
    var s, todo := states[k], Pending(n, k, lpn, end);
    assert Sustains(g, n, s, written[k], todo);
    assert lpn in todo;
    if Inv(s) {
      InvHasRoom(s);
    }
    SpaceFits(s, Div(lpn, n), v);
  }

  lemma PendingNext(n: nat, i: nat, lpn: nat, end: nat)
    requires n > 0 && lpn <= end
    ensures Pending(n, i, lpn + 1, end) == Pending(n, i, lpn, end) - {lpn}
    ensures i != Mod(lpn, n) ==> Pending(n, i, lpn + 1, end) == Pending(n, i, lpn, end)
  {
  }

  lemma StillSustains(g: SsdParams, n: nat, s: Ftl, t: Ftl, written: set<nat>, todo: set<nat>, lpn: nat, v: int)
    requires n > 0 && Sustains(g, n, s, written, todo) && lpn in todo && PageWritten(g, s, t, Div(lpn, n), v)
    ensures Sustains(g, n, t, written, todo - {lpn})
  {
    hide Inv, Space, Mapped, Read;
    if Inv(s) && AllowedIn(g, s, written) && (forall x :: x in todo ==> Div(x, n) in written) {
      SubsetSize(Mapped(s) + {Div(lpn, n)}, written);
    }
  }

  lemma StillAllowed(g: SsdParams, now: seq<Ftl>, next: seq<Ftl>, written: seq<set<nat>>, lpn: nat, end: nat, v: int)
    requires |now| > 0 && Allowed(g, now, written, lpn, end) && |next| == |now| && lpn <= end
    requires OnlyAt(now, next, Mod(lpn, |now|))
    requires PageWritten(g, now[Mod(lpn, |now|)], next[Mod(lpn, |now|)], Div(lpn, |now|), v)
    ensures Allowed(g, next, written, lpn + 1, end)
  {
    hide Sustains, PageWritten;
    var n, k := |now|, Mod(lpn, |now|);
    forall i | 0 <= i < n
      ensures Sustains(g, n, next[i], written[i], Pending(n, i, lpn + 1, end))
    {
      assert Sustains(g, n, now[i], written[i], Pending(n, i, lpn, end));
      PendingNext(n, i, lpn, end);
      if i == k {
        StillSustains(g, n, now[i], next[i], written[i], Pending(n, i, lpn, end), lpn, v);
      }
    }
  }

  lemma PartSizes(g: SsdParams, parts: seq<ConvFtl>)
    requires Partitions(g, parts)
    ensures forall i :: 0 <= i < |parts| ==> SizesOk(g, parts[i].st)
  {
    forall i | 0 <= i < |parts|
      ensures SizesOk(g, parts[i].st)
    {
      PartAt(g, parts, i);
      MapSize(g, parts[i]);
    }
  }

  lemma NoneWritten(g: SsdParams, start: nat, data: nat -> int, states: seq<Ftl>)
    requires forall i :: 0 <= i < |states| ==> SizesOk(g, states[i])
    ensures WrittenTo(g, start, start, data, states, states)
  {
    forall i, y | 0 <= i < |states| && 0 <= y < g.ttPgs
      ensures Reads(|states|, start, start, data, states[i], states[i], i, y)
    {
      assert SizesOk(g, states[i]);
    }
  }
}
