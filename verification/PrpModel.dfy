/** The two ways io.c moves the data of a command: page by page, and by DMA with contiguous pages merged. */
module PrpModel {
  import opened Arith

  const PAGE_SIZE: nat := 4096

  /** A read or write command: its two PRP fields, the PRP list the second one may point to, the byte offset
      of the data in the namespace and its length. */
  datatype Command = Command(toDevice: bool, prp1: nat, prp2: nat, list: seq<nat>, offset: nat, length: nat)

  /** One `memcpy` or one DMA request. */
  datatype Copy = Copy(toDevice: bool, host: nat, dev: nat, size: nat)

  datatype ByteCopy = ByteCopy(toDevice: bool, host: nat, dev: nat)

  /** How much of the data the page at `paddr` takes: to the end of the page at most. */
  function PageBytes(paddr: nat, remaining: nat): (n: nat)
    ensures remaining > 0 ==> 0 < n <= remaining
    ensures n <= PAGE_SIZE - paddr % PAGE_SIZE
  {
    Min(remaining, PAGE_SIZE - paddr % PAGE_SIZE)
  }

  /** How many pages of host memory the data of a command touches. */
  function Spans(c: Command): nat {
    if c.length == 0 then 0 else DivRoundUp(c.prp1 % PAGE_SIZE + c.length, PAGE_SIZE)
  }

  /** All entries but the first are page aligned, and the list is long enough. */
  predicate WellFormed(c: Command) {
    && (Spans(c) == 2 ==> c.prp2 % PAGE_SIZE == 0)
    && (Spans(c) > 2 ==>
          Spans(c) - 1 <= |c.list| && forall i :: 0 <= i < Spans(c) - 1 ==> c.list[i] % PAGE_SIZE == 0)
  }

  /** The PRP entries of a command (section 4.3 of NVM Express 1.3): one or two in the command itself, or
      the first in the command and the others in the list. */
  function Entry(c: Command, j: nat): nat
    requires WellFormed(c) && j < Spans(c)
  {
    if j == 0 then c.prp1 else if Spans(c) == 2 then c.prp2 else c.list[j - 1]
  }

  function Entries(c: Command): seq<nat>
    requires WellFormed(c)
  {
    seq(Spans(c), j requires 0 <= j < Spans(c) => Entry(c, j))
  }

  /** Only the first page may be entered in the middle. */
  predicate Aligned(addrs: seq<nat>) {
    forall i :: 0 < i < |addrs| ==> addrs[i] % PAGE_SIZE == 0
  }

  // ---------- what the copies move ----------

  /** Moving the bytes of `addrs` one page at a time. */
  function PageCopies(toDevice: bool, addrs: seq<nat>, dev: nat, remaining: nat): seq<Copy> {
    if remaining == 0 || addrs == [] then []
    else
      var n := PageBytes(addrs[0], remaining);
      [Copy(toDevice, addrs[0], dev, n)] + PageCopies(toDevice, addrs[1..], dev + n, remaining - n)
  }

  /** How many pages follow the first one without a gap. */
  function RunLength(addrs: seq<nat>): (k: nat)
    requires addrs != []
    ensures k < |addrs|
  {
    if |addrs| > 1 && addrs[1] == addrs[0] + PAGE_SIZE then 1 + RunLength(addrs[1..]) else 0
  }

  /** Moving them in runs of contiguous pages. */
  function MergedCopies(toDevice: bool, addrs: seq<nat>, dev: nat, remaining: nat): seq<Copy>
    decreases |addrs|
  {
    if remaining == 0 || addrs == [] then []
    else
      var k := RunLength(addrs);
      var n := Min(remaining, PageBytes(addrs[0], remaining) + k * PAGE_SIZE);
      [Copy(toDevice, addrs[0], dev, n)] + MergedCopies(toDevice, addrs[k + 1..], dev + n, remaining - n)
  }

  function CopyBytes(c: Copy): seq<ByteCopy> {
    seq(c.size, i requires 0 <= i < c.size => ByteCopy(c.toDevice, c.host + i, c.dev + i))
  }

  /** The bytes moved, in order. */
  function Bytes(copies: seq<Copy>): seq<ByteCopy> {
    if copies == [] then [] else CopyBytes(copies[0]) + Bytes(copies[1..])
  }

  // ---------- merging moves the same bytes ----------

  /** Two adjacent copies move what one copy of both moves. */
  lemma CopySplit(toDevice: bool, host: nat, dev: nat, m: nat, n: nat)
    ensures CopyBytes(Copy(toDevice, host, dev, m + n)) ==
            CopyBytes(Copy(toDevice, host, dev, m)) + CopyBytes(Copy(toDevice, host + m, dev + m, n))
  {
  }

  lemma PageUnfold(toDevice: bool, addrs: seq<nat>, dev: nat, remaining: nat)
    requires remaining > 0 && addrs != []
    ensures var m := PageBytes(addrs[0], remaining);
      Bytes(PageCopies(toDevice, addrs, dev, remaining)) ==
      CopyBytes(Copy(toDevice, addrs[0], dev, m)) + Bytes(PageCopies(toDevice, addrs[1..], dev + m, remaining - m))
  {
    var m := PageBytes(addrs[0], remaining);
    var all := PageCopies(toDevice, addrs, dev, remaining);
    assert all[0] == Copy(toDevice, addrs[0], dev, m) && all[1..] == PageCopies(toDevice, addrs[1..], dev + m, remaining - m);
  }

  lemma MergedFirst(toDevice: bool, addrs: seq<nat>, dev: nat, remaining: nat)
    requires remaining > 0 && addrs != []
    ensures var k := RunLength(addrs); var n := Min(remaining, PageBytes(addrs[0], remaining) + k * PAGE_SIZE);
      MergedCopies(toDevice, addrs, dev, remaining) ==
      [Copy(toDevice, addrs[0], dev, n)] + MergedCopies(toDevice, addrs[k + 1..], dev + n, remaining - n)
  {
  }

  lemma MergedUnfold(toDevice: bool, addrs: seq<nat>, dev: nat, remaining: nat)
    requires remaining > 0 && addrs != []
    ensures var k := RunLength(addrs); var n := Min(remaining, PageBytes(addrs[0], remaining) + k * PAGE_SIZE);
      Bytes(MergedCopies(toDevice, addrs, dev, remaining)) ==
      CopyBytes(Copy(toDevice, addrs[0], dev, n)) +
      Bytes(MergedCopies(toDevice, addrs[k + 1..], dev + n, remaining - n))
  {
    hide MergedCopies, RunLength, PageBytes, CopyBytes;
    MergedFirst(toDevice, addrs, dev, remaining);
    var k := RunLength(addrs);
    var n := Min(remaining, PageBytes(addrs[0], remaining) + k * PAGE_SIZE);
    var all := MergedCopies(toDevice, addrs, dev, remaining);
    assert all[0] == Copy(toDevice, addrs[0], dev, n);
    assert all[1..] == MergedCopies(toDevice, addrs[k + 1..], dev + n, remaining - n);
  }

  lemma NothingLeft(toDevice: bool, addrs: seq<nat>, dev: nat)
    ensures Bytes(PageCopies(toDevice, addrs, dev, 0)) == []
  {
  }

  /** A run of contiguous pages, moved page by page, is one copy. */
  lemma {:induction false} RunBytes(toDevice: bool, addrs: seq<nat>, dev: nat, remaining: nat)
    requires addrs != [] && addrs[0] % PAGE_SIZE == 0 && remaining > 0
    ensures var k := RunLength(addrs); var n := Min(remaining, (k + 1) * PAGE_SIZE);
      Bytes(PageCopies(toDevice, addrs, dev, remaining)) ==
      CopyBytes(Copy(toDevice, addrs[0], dev, n)) + Bytes(PageCopies(toDevice, addrs[k + 1..], dev + n, remaining - n))
  {
    hide CopyBytes, Bytes, PageCopies;
    var k, m := RunLength(addrs), PageBytes(addrs[0], remaining);
    var n := Min(remaining, (k + 1) * PAGE_SIZE);
    PageUnfold(toDevice, addrs, dev, remaining);
    if k > 0 {
      assert addrs[1..][k..] == addrs[k + 1..];
      if remaining > m {
        RunBytes(toDevice, addrs[1..], dev + m, remaining - m);
        CopySplit(toDevice, addrs[0], dev, m, n - m);
      } else {
        NothingLeft(toDevice, addrs[1..], dev + m);
        NothingLeft(toDevice, addrs[k + 1..], dev + n);
      }
    }
  }

  /** What the first merged copy moves, the page-by-page transfer moves first, too. */
  lemma FirstRun(toDevice: bool, addrs: seq<nat>, dev: nat, remaining: nat)
    requires remaining > 0 && addrs != []
    requires Aligned(addrs)
    ensures var k := RunLength(addrs); var n := Min(remaining, PageBytes(addrs[0], remaining) + k * PAGE_SIZE);
      Bytes(PageCopies(toDevice, addrs, dev, remaining)) ==
      CopyBytes(Copy(toDevice, addrs[0], dev, n)) + Bytes(PageCopies(toDevice, addrs[k + 1..], dev + n, remaining - n))
  {
    hide CopyBytes, Bytes, PageCopies;
    var k := RunLength(addrs);
    if addrs[0] % PAGE_SIZE == 0 {
      assert Min(remaining, PageBytes(addrs[0], remaining) + k * PAGE_SIZE) == Min(remaining, (k + 1) * PAGE_SIZE);
      RunBytes(toDevice, addrs, dev, remaining);
    } else {
      PageUnfold(toDevice, addrs, dev, remaining);
      assert k == 0;
    }
  }

  lemma {:induction false} MergedBytes(toDevice: bool, addrs: seq<nat>, dev: nat, remaining: nat)
    requires Aligned(addrs)
    ensures Bytes(MergedCopies(toDevice, addrs, dev, remaining)) == Bytes(PageCopies(toDevice, addrs, dev, remaining))
    decreases |addrs|
  {
    hide CopyBytes, Bytes, PageCopies, MergedCopies, RunLength, PageBytes, Aligned;
    if remaining == 0 || addrs == [] {
      NothingToMove(toDevice, addrs, dev, remaining);
    } else {
      var k := RunLength(addrs);
      var n := Min(remaining, PageBytes(addrs[0], remaining) + k * PAGE_SIZE);
      MergedUnfold(toDevice, addrs, dev, remaining);
      FirstRun(toDevice, addrs, dev, remaining);
      AlignedRest(addrs, k + 1);
      MergedBytes(toDevice, addrs[k + 1..], dev + n, remaining - n);
    }
  }

  lemma NothingToMove(toDevice: bool, addrs: seq<nat>, dev: nat, remaining: nat)
    requires remaining == 0 || addrs == []
    ensures MergedCopies(toDevice, addrs, dev, remaining) == PageCopies(toDevice, addrs, dev, remaining) == []
  {
  }

  lemma AlignedRest(addrs: seq<nat>, k: nat)
    requires Aligned(addrs) && k <= |addrs|
    ensures Aligned(addrs[k..])
  {
  }

  /** For every well-formed command the merged transfer moves the same bytes as the page-by-page transfer
      if the namespace starts at the storage base, and (unless it is empty) only then: the DMA path does not
      add the start of the namespace. */
  lemma DmaMovesTheSameBytes(c: Command, nsBase: nat)
    requires WellFormed(c) && c.length > 0
    ensures Bytes(MergedCopies(c.toDevice, Entries(c), c.offset, c.length)) ==
            Bytes(PageCopies(c.toDevice, Entries(c), nsBase + c.offset, c.length))
            <==> nsBase == 0
  {
    EntriesAligned(c);
    MergedBytes(c.toDevice, Entries(c), c.offset, c.length);
    FirstByte(c.toDevice, Entries(c), c.offset, c.length);
    FirstByte(c.toDevice, Entries(c), nsBase + c.offset, c.length);
  }

  lemma EntriesAligned(c: Command)
    requires WellFormed(c)
    ensures c.length > 0 ==> Entries(c) != [] && Entries(c)[0] == c.prp1
    ensures Aligned(Entries(c))
  {
    if c.length > 0 {
      assert DivRoundUp(c.prp1 % PAGE_SIZE + c.length, PAGE_SIZE) * PAGE_SIZE > 0;
    }
  }

  lemma FirstByte(toDevice: bool, addrs: seq<nat>, dev: nat, remaining: nat)
    requires addrs != [] && remaining > 0
    ensures var b := Bytes(PageCopies(toDevice, addrs, dev, remaining));
      |b| > 0 && b[0] == ByteCopy(toDevice, addrs[0], dev)
  {
    var p := PageCopies(toDevice, addrs, dev, remaining);
    assert p[0] == Copy(toDevice, addrs[0], dev, PageBytes(addrs[0], remaining));
  }

  // ---------- all of the data is moved, from where the command says ----------

  /** The pages have room for the data. */
  ghost predicate Covers(addrs: seq<nat>, remaining: nat) {
    && Aligned(addrs)
    && (remaining > 0 ==> addrs != [] && addrs[0] % PAGE_SIZE + remaining <= |addrs| * PAGE_SIZE)
  }

  lemma EnoughEntries(c: Command)
    requires WellFormed(c)
    ensures Covers(Entries(c), c.length)
  {
    EntriesAligned(c);
    if c.length > 0 {
      assert DivRoundUp(c.prp1 % PAGE_SIZE + c.length, PAGE_SIZE) * PAGE_SIZE >= c.prp1 % PAGE_SIZE + c.length;
    }
  }

  /** Where byte `i` lies when the bytes fill the pages at `addrs` one after the other. */
  function ByteAt(addrs: seq<nat>, i: nat): nat
    requires addrs != [] && addrs[0] % PAGE_SIZE + i < |addrs| * PAGE_SIZE
  {
    var at := addrs[0] % PAGE_SIZE + i;
    if at < PAGE_SIZE then addrs[0] + i else addrs[at / PAGE_SIZE] + at % PAGE_SIZE
  }

  lemma ByteAtRest(addrs: seq<nat>, n: nat, i: nat)
    requires |addrs| > 1 && Aligned(addrs) && addrs[0] % PAGE_SIZE + n == PAGE_SIZE <= addrs[0] % PAGE_SIZE + i
    requires addrs[0] % PAGE_SIZE + i < |addrs| * PAGE_SIZE
    ensures i - n < |addrs[1..]| * PAGE_SIZE && addrs[1] % PAGE_SIZE == 0
    ensures ByteAt(addrs[1..], i - n) == ByteAt(addrs, i)
  {
    var at := addrs[0] % PAGE_SIZE + i;
    DigitsUnique(at / PAGE_SIZE - 1, at % PAGE_SIZE, PAGE_SIZE);
  }

  lemma {:induction false} PagesCover(toDevice: bool, addrs: seq<nat>, dev: nat, remaining: nat)
    requires Covers(addrs, remaining)
    ensures var b := Bytes(PageCopies(toDevice, addrs, dev, remaining));
      |b| == remaining && forall i :: 0 <= i < |b| ==> b[i] == ByteCopy(toDevice, ByteAt(addrs, i), dev + i)
  {
    hide PageCopies, Bytes, ByteAt;
    if remaining == 0 {
      NothingLeft(toDevice, addrs, dev);
    } else {
      var n := PageBytes(addrs[0], remaining);
      PageUnfold(toDevice, addrs, dev, remaining);
      PagesCover(toDevice, addrs[1..], dev + n, remaining - n);
      var b := Bytes(PageCopies(toDevice, addrs, dev, remaining));
      var rest := Bytes(PageCopies(toDevice, addrs[1..], dev + n, remaining - n));
      forall i | 0 <= i < remaining
        ensures b[i] == ByteCopy(toDevice, ByteAt(addrs, i), dev + i)
      {
        if i < n {
          FirstPage(addrs, i);
        } else {
          assert b[i] == rest[i - n];
          ByteAtRest(addrs, n, i);
        }
      }
    }
  }

  lemma FirstPage(addrs: seq<nat>, i: nat)
    requires addrs != [] && addrs[0] % PAGE_SIZE + i < PAGE_SIZE
    ensures addrs[0] % PAGE_SIZE + i < |addrs| * PAGE_SIZE && ByteAt(addrs, i) == addrs[0] + i
  {
  }

  /** The host address of byte `i` of the data, from the fields of the command alone: with the bytes counted from the
      start of the first page, entry number `at / PAGE_SIZE` holds it, at `at % PAGE_SIZE` in its page. */
  function HostAt(c: Command, i: nat): nat
    requires WellFormed(c) && i < c.length
  {
    var at := c.prp1 % PAGE_SIZE + i;
    Touched(c, i);
    if at < PAGE_SIZE then c.prp1 + i
    else (if c.prp1 % PAGE_SIZE + c.length <= 2 * PAGE_SIZE then c.prp2 else c.list[at / PAGE_SIZE - 1]) + at % PAGE_SIZE
  }

  /** The pages before the last one hold less than all of the data. */
  lemma Touched(c: Command, i: nat)
    requires i < c.length
    ensures (c.prp1 % PAGE_SIZE + i) / PAGE_SIZE < Spans(c)
    ensures Spans(c) > 2 <==> c.prp1 % PAGE_SIZE + c.length > 2 * PAGE_SIZE
    ensures Spans(c) > 1 <==> c.prp1 % PAGE_SIZE + c.length > PAGE_SIZE
  {
    var n := DivRoundUp(c.prp1 % PAGE_SIZE + c.length, PAGE_SIZE);
    assert n * PAGE_SIZE >= c.prp1 % PAGE_SIZE + c.length && (n > 0 ==> (n - 1) * PAGE_SIZE < c.prp1 % PAGE_SIZE + c.length);
  }

  /** The copies move all of the data, byte `i` between its host address and the device address `dev + i`. */
  ghost predicate MovesAll(c: Command, dev: nat, copies: seq<Copy>)
    requires WellFormed(c)
  {
    && |Bytes(copies)| == c.length
    && forall i :: 0 <= i < c.length ==> Bytes(copies)[i] == ByteCopy(c.toDevice, HostAt(c, i), dev + i)
  }

  lemma HostByte(c: Command, i: nat)
    requires WellFormed(c) && i < c.length
    ensures Entries(c) != [] && Entries(c)[0] % PAGE_SIZE + i < |Entries(c)| * PAGE_SIZE
    ensures ByteAt(Entries(c), i) == HostAt(c, i)
  {
    Touched(c, i);
    EnoughEntries(c);
    EntriesAligned(c);
    var at := c.prp1 % PAGE_SIZE + i;
    if at >= PAGE_SIZE {
      assert ByteAt(Entries(c), i) == Entry(c, at / PAGE_SIZE) + at % PAGE_SIZE;
    }
  }

  /** The page-by-page transfer moves every byte of the command, to or from where the command says. */
  lemma AllBytesMoved(c: Command, dev: nat)
    requires WellFormed(c)
    ensures MovesAll(c, dev, PageCopies(c.toDevice, Entries(c), dev, c.length))
  {
    hide Entries, PageCopies, Bytes, ByteAt, HostAt, WellFormed, Covers, Spans;
    EnoughEntries(c);
    PagesCover(c.toDevice, Entries(c), dev, c.length);
    forall i | 0 <= i < c.length
      ensures Bytes(PageCopies(c.toDevice, Entries(c), dev, c.length))[i] == ByteCopy(c.toDevice, HostAt(c, i), dev + i)
    {
      HostByte(c, i);
    }
  }

  /** So does the merged transfer. */
  lemma MergedMovesAll(c: Command, dev: nat)
    requires WellFormed(c)
    ensures MovesAll(c, dev, MergedCopies(c.toDevice, Entries(c), dev, c.length))
  {
    hide Entries, PageCopies, MergedCopies, Bytes, HostAt, WellFormed;
    AllBytesMoved(c, dev);
    EntriesAligned(c);
    MergedBytes(c.toDevice, Entries(c), dev, c.length);
  }

  // ---------- where the copies begin and end ----------

  /** Every copy stays in one page of the host. */
  ghost predicate InPages(copies: seq<Copy>) {
    forall k :: 0 <= k < |copies| ==> copies[k].size > 0 && copies[k].host % PAGE_SIZE + copies[k].size <= PAGE_SIZE
  }

  /** The page-by-page transfer makes one copy for each page that the data touches. */
  lemma OneForEachPage(c: Command, dev: nat)
    requires WellFormed(c)
    ensures var copies := PageCopies(c.toDevice, Entries(c), dev, c.length); |copies| == Spans(c) && InPages(copies)
  {
    hide PageCopies, InPages;
    EnoughEntries(c);
    if c.length == 0 {
      NothingInPages(c.toDevice, Entries(c), dev);
    } else {
      EntriesAligned(c);
      var n := DivRoundUp(c.prp1 % PAGE_SIZE + c.length, PAGE_SIZE);
      assert (n - 1) * PAGE_SIZE < c.prp1 % PAGE_SIZE + c.length;
      PagePieces(c.toDevice, Entries(c), dev, c.length);
    }
  }

  lemma NothingInPages(toDevice: bool, addrs: seq<nat>, dev: nat)
    ensures PageCopies(toDevice, addrs, dev, 0) == [] && InPages([])
  {
  }

  lemma {:induction false} PagePieces(toDevice: bool, addrs: seq<nat>, dev: nat, remaining: nat)
    requires remaining > 0 && Covers(addrs, remaining) && (|addrs| - 1) * PAGE_SIZE < addrs[0] % PAGE_SIZE + remaining
    ensures var copies := PageCopies(toDevice, addrs, dev, remaining); |copies| == |addrs| && InPages(copies)
  {
    var n := PageBytes(addrs[0], remaining);
    if |addrs| > 1 {
      PagePieces(toDevice, addrs[1..], dev + n, remaining - n);
    }
  }

  /** A copy that begins with a page could not have been longer. One that does not is the first and ends with its
      page. */
  ghost predicate EndsRight(copies: seq<Copy>, k: nat)
    requires k < |copies|
  {
    && copies[k].size > 0
    && if copies[k].host % PAGE_SIZE != 0 then k == 0 && copies[k].host % PAGE_SIZE + copies[k].size <= PAGE_SIZE
       else k + 1 < |copies| ==> copies[k].host + copies[k].size != copies[k + 1].host
  }

  ghost predicate Maximal(copies: seq<Copy>) {
    forall k :: 0 <= k < |copies| ==> EndsRight(copies, k)
  }

  lemma {:induction false} RunsEnd(addrs: seq<nat>)
    requires addrs != []
    ensures var k := RunLength(addrs);
      addrs[k] == addrs[0] + k * PAGE_SIZE && (k + 1 < |addrs| ==> addrs[k + 1] != addrs[k] + PAGE_SIZE)
  {
    if RunLength(addrs) > 0 {
      RunsEnd(addrs[1..]);
    }
  }

  lemma MaximalFirst(first: Copy, rest: seq<Copy>)
    requires Maximal(rest) && first.size > 0 && (rest != [] ==> rest[0].host % PAGE_SIZE == 0)
    requires if first.host % PAGE_SIZE != 0 then first.host % PAGE_SIZE + first.size <= PAGE_SIZE
             else rest != [] ==> first.host + first.size != rest[0].host
    ensures Maximal([first] + rest)
  {
    var copies := [first] + rest;
    forall k | 0 <= k < |copies|
      ensures EndsRight(copies, k)
    {
      if k > 0 {
        assert EndsRight(rest, k - 1);
      }
    }
  }

  /** The merged transfer makes one request for each run of contiguous pages. */
  lemma {:induction false} MergedMaximal(toDevice: bool, addrs: seq<nat>, dev: nat, remaining: nat)
    requires Aligned(addrs)
    ensures Maximal(MergedCopies(toDevice, addrs, dev, remaining))
    decreases |addrs|
  {
    hide MergedCopies, RunLength, EndsRight;
    if remaining == 0 || addrs == [] {
      NothingToMove(toDevice, addrs, dev, remaining);
      assert Maximal([]);
    } else {
      var k := RunLength(addrs);
      var n := Min(remaining, PageBytes(addrs[0], remaining) + k * PAGE_SIZE);
      MergedFirst(toDevice, addrs, dev, remaining);
      RunsEnd(addrs);
      AlignedRest(addrs, k + 1);
      MergedMaximal(toDevice, addrs[k + 1..], dev + n, remaining - n);
      FirstOf(toDevice, addrs[k + 1..], dev + n, remaining - n);
      assert addrs[0] % PAGE_SIZE != 0 ==> k == 0;
      MaximalFirst(Copy(toDevice, addrs[0], dev, n), MergedCopies(toDevice, addrs[k + 1..], dev + n, remaining - n));
    }
  }

  lemma FirstOf(toDevice: bool, addrs: seq<nat>, dev: nat, remaining: nat)
    ensures var copies := MergedCopies(toDevice, addrs, dev, remaining);
      copies != [] ==> remaining > 0 && addrs != [] && copies[0].host == addrs[0]
  {
  }
}
