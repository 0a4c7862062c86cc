/** The copy loops of `__do_perform_io` and `__do_perform_io_using_dma` in io.c. */
module PrpIo {
  import opened Arith
  import opened PrpModel

  /** What is left to move when the loop comes to entry `k` (counted from 1). */
  function Left(c: Command, k: nat): int {
    if k <= 1 then c.length else c.prp1 % PAGE_SIZE + c.length - (k - 1) * PAGE_SIZE
  }

  /** The loop picks the entries of the command, and there is something left exactly while there are some. */
  lemma EntryAt(c: Command, k: nat)
    requires WellFormed(c) && 1 <= k <= |Entries(c)| + 1
    ensures k <= |Entries(c)| <==> Left(c, k) > 0
    ensures k <= |Entries(c)| ==>
      && Entries(c)[k - 1] == (if k == 1 then c.prp1 else if Spans(c) == 2 then c.prp2 else c.list[k - 2])
      && (k > 1 && Spans(c) > 2 ==> k - 2 < |c.list|)
      && (k == 2 ==> (Left(c, k) > PAGE_SIZE <==> Spans(c) > 2))
      && (k > 2 ==> Spans(c) > 2)
      && Max0(Left(c, k) - PageBytes(Entries(c)[k - 1], Left(c, k))) == Max0(Left(c, k + 1))
  {
    if c.length > 0 {
      var n := DivRoundUp(c.prp1 % PAGE_SIZE + c.length, PAGE_SIZE);
      assert n * PAGE_SIZE >= c.prp1 % PAGE_SIZE + c.length;
      assert n > 0 ==> (n - 1) * PAGE_SIZE < c.prp1 % PAGE_SIZE + c.length;
    }
  }

  function Max0(x: int): nat {
    if x > 0 then x else 0
  }

  lemma CopiesStep(copies: seq<Copy>, toDevice: bool, addrs: seq<nat>, k: nat, dev: nat, remaining: nat)
    requires 1 <= k <= |addrs| && remaining > 0
    ensures var n := PageBytes(addrs[k - 1], remaining);
      copies + PageCopies(toDevice, addrs[k - 1..], dev, remaining) ==
      (copies + [Copy(toDevice, addrs[k - 1], dev, n)]) + PageCopies(toDevice, addrs[k..], dev + n, remaining - n)
  {
    assert addrs[k - 1..][1..] == addrs[k..];
  }

  /** The index into the PRP list when the loop comes to entry `k`. */
  function ListOffs(c: Command, k: nat): nat {
    if k > 2 && Spans(c) > 2 then k - 2 else 0
  }

  /** The next entry, as both functions fetch it. */
  method FetchEntry(c: Command, prpOffs: nat, prp2Offs: nat, remaining: nat) returns (paddr: nat, next: nat)
    requires WellFormed(c) && 1 <= prpOffs <= |Entries(c)|
    requires remaining == Left(c, prpOffs) && prp2Offs == ListOffs(c, prpOffs)
    ensures paddr == Entries(c)[prpOffs - 1] && next == ListOffs(c, prpOffs + 1)
  {
    EntryAt(c, prpOffs);
    hide Entries, WellFormed;
    next := prp2Offs;
    if prpOffs == 1 {
      paddr := c.prp1;
    } else if prpOffs == 2 {
      paddr := c.prp2;
      if remaining > PAGE_SIZE {
        paddr := c.list[next];
        next := next + 1;
      }
    } else {
      paddr := c.list[next];
      next := next + 1;
    }
  }

  /** The bytes of one page, as all three loops compute them. */
  method PageSize(paddr: nat, remaining: nat) returns (ioSize: nat)
    ensures ioSize == PageBytes(paddr, remaining)
  {
    ioSize := if remaining < PAGE_SIZE then remaining else PAGE_SIZE;
    if paddr % PAGE_SIZE != 0 {
      var memOffs := paddr % PAGE_SIZE;
      if ioSize + memOffs > PAGE_SIZE {
        ioSize := PAGE_SIZE - memOffs;
      }
    }
  }

  /** Where the fetching loops are: `done` entries have been fetched. */
  ghost predicate Progress(c: Command, done: nat, prp2Offs: nat, remaining: nat)
    requires WellFormed(c)
  {
    && done <= |Entries(c)| && remaining == Max0(Left(c, done + 1)) && prp2Offs == ListOffs(c, done + 1)
    && (remaining > 0 <==> done < |Entries(c)|)
  }

  lemma Starts(c: Command)
    requires WellFormed(c)
    ensures Progress(c, 0, 0, c.length)
  {
    EntryAt(c, 1);
  }

  lemma Advances(c: Command, done: nat, prp2Offs: nat, remaining: nat)
    requires WellFormed(c) && Progress(c, done, prp2Offs, remaining) && remaining > 0
    ensures done < |Entries(c)| && remaining == Left(c, done + 1) && prp2Offs == ListOffs(c, done + 1)
    ensures Progress(c, done + 1, ListOffs(c, done + 2), remaining - PageBytes(Entries(c)[done], remaining))
  {
    EntryAt(c, done + 1);
    EntryAt(c, done + 2);
  }

  /** `__do_perform_io`: one copy for each page, at the namespace's own memory. */
  method PerformIo(c: Command, nsBase: nat) returns (copies: seq<Copy>)
    requires WellFormed(c)
    ensures copies == PageCopies(c.toDevice, Entries(c), nsBase + c.offset, c.length)
    ensures MovesAll(c, nsBase + c.offset, copies) && |copies| == Spans(c) && InPages(copies)
  {
    hide Entries, PageCopies, WellFormed, Progress, PageBytes, Left, ListOffs, MovesAll, InPages, Spans;
    copies := [];
    var offset: nat, remaining: nat := c.offset, c.length;
    var prpOffs: nat, prp2Offs: nat := 0, 0;
    ghost var addrs := Entries(c);
    Starts(c);
    assert addrs[0..] == addrs;
    while remaining > 0
      invariant Progress(c, prpOffs, prp2Offs, remaining) && prpOffs <= |addrs|
      invariant PageCopies(c.toDevice, addrs, nsBase + c.offset, c.length) ==
                copies + PageCopies(c.toDevice, addrs[prpOffs..], nsBase + offset, remaining)
      decreases remaining
    {
      Advances(c, prpOffs, prp2Offs, remaining);
      prpOffs := prpOffs + 1;
      CopiesStep(copies, c.toDevice, addrs, prpOffs, nsBase + offset, remaining);
      var paddr;
      paddr, prp2Offs := FetchEntry(c, prpOffs, prp2Offs, remaining);
      var ioSize := PageSize(paddr, remaining);
      copies := copies + [Copy(c.toDevice, paddr, nsBase + offset, ioSize)];
      remaining := remaining - ioSize;
      offset := offset + ioSize;
    }
    NoCopies(c.toDevice, addrs[prpOffs..], nsBase + offset);
    AllBytesMoved(c, nsBase + c.offset);
    OneForEachPage(c, nsBase + c.offset);
  }

  lemma NoCopies(toDevice: bool, addrs: seq<nat>, dev: nat)
    ensures PageCopies(toDevice, addrs, dev, 0) == [] && MergedCopies(toDevice, addrs, dev, 0) == []
  {
  }

  /** Index 0 of `paddr_list` is not used. */
  ghost predicate Listed(paddrList: seq<nat>, addrs: seq<nat>) {
    |addrs| < |paddrList| && forall i :: 0 <= i < |addrs| ==> paddrList[i + 1] == addrs[i]
  }

  /** The first loop of `__do_perform_io_using_dma`: the entries go to `paddr_list`, from index 1 on. */
  method GatherEntries(c: Command, paddrList: array<nat>) returns (numPrps: nat)
    requires WellFormed(c) && |Entries(c)| < paddrList.Length
    modifies paddrList
    ensures numPrps == |Entries(c)| && Listed(paddrList[..], Entries(c))
  {
    hide Entries, WellFormed, Progress, PageBytes, Left, ListOffs;
    var remaining: nat := c.length;
    var prpOffs: nat, prp2Offs: nat := 0, 0;
    ghost var addrs := Entries(c);
    Starts(c);
    while remaining > 0
      invariant Progress(c, prpOffs, prp2Offs, remaining) && prpOffs <= |addrs|
      invariant forall i :: 0 <= i < prpOffs ==> paddrList[i + 1] == addrs[i]
      decreases remaining
    {
      Advances(c, prpOffs, prp2Offs, remaining);
      prpOffs := prpOffs + 1;
      paddrList[prpOffs], prp2Offs := FetchEntry(c, prpOffs, prp2Offs, remaining);
      var ioSize := PageSize(paddrList[prpOffs], remaining);
      remaining := remaining - ioSize;
    }
    numPrps := prpOffs;
    AllFetched(c, prpOffs, prp2Offs);
  }

  lemma AllFetched(c: Command, done: nat, prp2Offs: nat)
    requires WellFormed(c) && Progress(c, done, prp2Offs, 0)
    ensures done == |Entries(c)|
  {
  }

  /** After the run that starts at position `k` the remaining pages have room for the remaining data. */
  lemma CoversStep(addrs: seq<nat>, k: nat, remaining: nat)
    requires k <= |addrs| && Covers(addrs[k..], remaining) && remaining > 0
    ensures k < |addrs|
    ensures var j := RunLength(addrs[k..]);
      var n := Min(remaining, PageBytes(addrs[k], remaining) + j * PAGE_SIZE);
      k + j < |addrs| && n > 0 && Covers(addrs[k + j + 1..], remaining - n)
  {
    var j := RunLength(addrs[k..]);
    var n := Min(remaining, PageBytes(addrs[k], remaining) + j * PAGE_SIZE);
    var later := addrs[k + j + 1..];
    assert forall i :: 0 <= i < |later| ==> later[i] == addrs[k..][i + j + 1];
    assert later != [] ==> later[0] % PAGE_SIZE == 0;
  }

  lemma RunStep(addrs: seq<nat>, k: nat)
    requires k < |addrs|
    ensures RunLength(addrs[k..]) ==
            if k + 1 < |addrs| && addrs[k + 1] == addrs[k] + PAGE_SIZE then 1 + RunLength(addrs[k + 1..]) else 0
  {
    assert addrs[k..][1..] == addrs[k + 1..];
  }

  lemma MergedStep(copies: seq<Copy>, toDevice: bool, addrs: seq<nat>, k: nat, dev: nat, remaining: nat)
    requires k < |addrs| && remaining > 0
    ensures var j := RunLength(addrs[k..]);
      var n := Min(remaining, PageBytes(addrs[k], remaining) + j * PAGE_SIZE);
      && k + j < |addrs|
      && copies + MergedCopies(toDevice, addrs[k..], dev, remaining) ==
         (copies + [Copy(toDevice, addrs[k], dev, n)]) + MergedCopies(toDevice, addrs[k + j + 1..], dev + n, remaining - n)
  {
    hide RunLength, PageBytes, MergedCopies;
    var run := addrs[k..];
    MergedFirst(toDevice, run, dev, remaining);
    assert run[0] == addrs[k] && run[RunLength(run) + 1..] == addrs[k + RunLength(run) + 1..];
  }

  /** The inner loop of `__do_perform_io_using_dma`: the entries that continue the run at `prpOffs`. */
  method MergeRun(paddrList: array<nat>, numPrps: nat, prpOffs: nat, pageSize: nat, ghost addrs: seq<nat>)
    returns (next: nat, size: nat)
    requires 1 <= prpOffs <= numPrps == |addrs| && Listed(paddrList[..], addrs)
    ensures var j := RunLength(addrs[prpOffs - 1..]); next == prpOffs + j + 1 && size == pageSize + j * PAGE_SIZE
  {
    hide RunLength;
    size := pageSize;
    next := prpOffs + 1;
    while next <= numPrps
      invariant prpOffs < next <= numPrps + 1
      invariant RunLength(addrs[prpOffs - 1..]) == next - prpOffs - 1 + RunLength(addrs[next - 2..])
      invariant size == pageSize + (next - prpOffs - 1) * PAGE_SIZE
    {
      RunStep(addrs, next - 2);
      if paddrList[next] == paddrList[next - 1] + PAGE_SIZE {
        size := size + PAGE_SIZE;
      } else {
        return;
      }
      next := next + 1;
    }
    RunStep(addrs, next - 2);
  }

  /** The second loop of `__do_perform_io_using_dma`: one request for each run of contiguous pages. */
  method TransferRuns(c: Command, paddrList: array<nat>, numPrps: nat, ghost addrs: seq<nat>) returns (copies: seq<Copy>)
    requires numPrps == |addrs| && Listed(paddrList[..], addrs) && Covers(addrs, c.length)
    ensures copies == MergedCopies(c.toDevice, addrs, c.offset, c.length)
  {
    hide MergedCopies, RunLength, PageBytes, Covers;
    copies := [];
    var offset: nat, remaining: nat := c.offset, c.length;
    var prpOffs: nat := 1;
    assert addrs[0..] == addrs;
    while remaining > 0
      invariant 1 <= prpOffs <= |addrs| + 1 && Covers(addrs[prpOffs - 1..], remaining)
      invariant MergedCopies(c.toDevice, addrs, c.offset, c.length) ==
                copies + MergedCopies(c.toDevice, addrs[prpOffs - 1..], offset, remaining)
      decreases remaining
    {
      CoversStep(addrs, prpOffs - 1, remaining);
      MergedStep(copies, c.toDevice, addrs, prpOffs - 1, offset, remaining);
      var paddr := paddrList[prpOffs];
      var pageSize := PageSize(paddr, remaining);
      prpOffs, pageSize := MergeRun(paddrList, numPrps, prpOffs, pageSize, addrs);
      var ioSize := if remaining < pageSize then remaining else pageSize;
      copies := copies + [Copy(c.toDevice, paddr, offset, ioSize)];
      remaining := remaining - ioSize;
      offset := offset + ioSize;
    }
    NoCopies(c.toDevice, addrs[prpOffs - 1..], offset);
  }

  /** `__do_perform_io_using_dma`, which addresses the storage from its base. The static list has room for
      512 entries. */
  method PerformIoUsingDma(c: Command, paddrList: array<nat>) returns (copies: seq<Copy>)
    requires WellFormed(c) && paddrList.Length == 513 && Spans(c) <= 512
    modifies paddrList
    ensures copies == MergedCopies(c.toDevice, Entries(c), c.offset, c.length)
    ensures MovesAll(c, c.offset, copies) && Maximal(copies)
  {
    hide MovesAll, Maximal, MergedCopies;
    var numPrps := GatherEntries(c, paddrList);
    EnoughEntries(c);
    copies := TransferRuns(c, paddrList, numPrps, Entries(c));
    MergedMovesAll(c, c.offset);
    EntriesAligned(c);
    MergedMaximal(c.toDevice, Entries(c), c.offset, c.length);
  }
}
