/** The pages and blocks of one SSD partition: `struct nand_page` and `struct nand_block` (ssd.h)
    with the parts of `mark_page_invalid`, `mark_page_valid` and `mark_block_free` that touch them
    (conv_ftl.c). */
module NandArray {
  import opened Arith
  import opened Counting
  import opened Geometry

  datatype PgStatus = Free | Invalid | Valid

  /** The index of a block's first page. */
  ghost function First(g: SsdParams, b: nat): nat {
    MulAdd(b, g.pgsPerBlk, 0)
  }

  ghost predicate BlockCounted(g: SsdParams, status: seq<PgStatus>, vpc: int, ipc: int, b: nat) {
    && vpc == CountIn(status, First(g, b), First(g, b) + g.pgsPerBlk, Valid)
    && ipc == CountIn(status, First(g, b), First(g, b) + g.pgsPerBlk, Invalid)
  }

  /** Every block's counters are the numbers of its valid and of its invalid pages. */
  ghost predicate Counted(g: SsdParams, status: seq<PgStatus>, vpc: seq<int>, ipc: seq<int>) {
    && |status| == g.ttPgs && |vpc| == g.ttBlks && |ipc| == g.ttBlks
    && forall b :: 0 <= b < g.ttBlks ==> BlockCounted(g, status, vpc[b], ipc[b], b)
  }

  lemma BlockInArray(g: SsdParams, b: nat)
    requires b < g.ttBlks
    ensures First(g, b) + g.pgsPerBlk <= g.ttPgs
  {
    PagesOfBlocks(g);
    MulMono(b + 1, g.ttBlks, g.pgsPerBlk);
    Distribute(b, 1, g.pgsPerBlk);
  }

  lemma BlocksApart(g: SsdParams, b: nat, c: nat)
    requires b != c
    ensures First(g, b) + g.pgsPerBlk <= First(g, c) || First(g, c) + g.pgsPerBlk <= First(g, b)
  {
    if b < c {
      MulMono(b + 1, c, g.pgsPerBlk);
      Distribute(b, 1, g.pgsPerBlk);
    } else {
      MulMono(c + 1, b, g.pgsPerBlk);
      Distribute(c, 1, g.pgsPerBlk);
    }
  }

  /** A page index lies in the stretch of its own block and of no other. */
  lemma PageInBlock(g: SsdParams, p: Ppa, b: nat)
    requires ValidPpa(g, p)
    ensures First(g, b) <= PgIdx(g, p) < First(g, b) + g.pgsPerBlk <==> b == BlkIdx(g, p)
    ensures b == BlkIdx(g, p) ==> PgIdx(g, p) == First(g, b) + p.pg
  {
    PgIdxDigits(g, p);
    var i := PgIdx(g, p) - First(g, b);
    if 0 <= i < g.pgsPerBlk {
      QuotientUnique(b, i, BlkIdx(g, p), p.pg, g.pgsPerBlk);
    }
  }

  /** The change of a counter of `x` when one page goes from `was` to `now`. */
  function Delta(was: PgStatus, now: PgStatus, x: PgStatus): int {
    (if now == x then 1 else 0) - (if was == x then 1 else 0)
  }

  /** Setting one status and adjusting the counters of its block keeps all counters exact. */
  lemma Recounted(g: SsdParams, status: seq<PgStatus>, vpc: seq<int>, ipc: seq<int>, p: Ppa, now: PgStatus)
    requires Counted(g, status, vpc, ipc) && ValidPpa(g, p)
    ensures PgIdx(g, p) < |status| && BlkIdx(g, p) < g.ttBlks
    ensures var i, b := PgIdx(g, p), BlkIdx(g, p);
      Counted(g, status[i := now],
              vpc[b := vpc[b] + Delta(status[i], now, Valid)],
              ipc[b := ipc[b] + Delta(status[i], now, Invalid)])
  {
    PgIdxInverse(g, p);
    var i, blk := PgIdx(g, p), BlkIdx(g, p);
    var status', was := status[i := now], status[i];
    var vpc' := vpc[blk := vpc[blk] + Delta(was, now, Valid)];
    var ipc' := ipc[blk := ipc[blk] + Delta(was, now, Invalid)];
    forall b | 0 <= b < g.ttBlks
      ensures BlockCounted(g, status', vpc'[b], ipc'[b], b)
    {
      PageInBlock(g, p, b);
      assert BlockCounted(g, status, vpc[b], ipc[b], b);
      CountUpdate(status, First(g, b), First(g, b) + g.pgsPerBlk, Valid, i, now);
      CountUpdate(status, First(g, b), First(g, b) + g.pgsPerBlk, Invalid, i, now);
    }
  }

  /** The bounds that the NVMEV_ASSERTs on a block's counters check. */
  lemma BlockBounds(g: SsdParams, status: seq<PgStatus>, vpc: seq<int>, ipc: seq<int>, p: Ppa)
    requires Counted(g, status, vpc, ipc) && ValidPpa(g, p)
    ensures PgIdx(g, p) < |status| && BlkIdx(g, p) < |vpc|
    ensures var b := BlkIdx(g, p);
      && 0 <= vpc[b] && 0 <= ipc[b] && vpc[b] + ipc[b] <= g.pgsPerBlk
      && (status[PgIdx(g, p)] == Valid ==> vpc[b] > 0)
      && (status[PgIdx(g, p)] == Free ==> vpc[b] + ipc[b] < g.pgsPerBlk)
  {
    PgIdxInverse(g, p);
    var b, i := BlkIdx(g, p), PgIdx(g, p);
    PageInBlock(g, p, b);
    assert BlockCounted(g, status, vpc[b], ipc[b], b);
    var lo, hi := First(g, b), First(g, b) + g.pgsPerBlk;
    CountDisjoint(status, lo, hi, Valid, Invalid);
    if status[i] == Valid {
      CountPositive(status, lo, hi, Valid, i);
    } else if status[i] == Free {
      CountUpdate(status, lo, hi, Valid, i, Valid);
      CountUpdate(status, lo, hi, Invalid, i, Valid);
      CountDisjoint(status[i := Valid], lo, hi, Valid, Invalid);
    }
  }

  /** Freeing all pages of one block and zeroing its counters keeps all counters exact. */
  lemma ErasedCounted(g: SsdParams, status: seq<PgStatus>, vpc: seq<int>, ipc: seq<int>, b: nat, status': seq<PgStatus>)
    requires Counted(g, status, vpc, ipc) && b < g.ttBlks
    requires |status'| == |status|
    requires forall i :: 0 <= i < |status| ==>
      status'[i] == if First(g, b) <= i < First(g, b) + g.pgsPerBlk then Free else status[i]
    ensures Counted(g, status', vpc[b := 0], ipc[b := 0])
  {
    var vpc', ipc' := vpc[b := 0], ipc[b := 0];
    forall c | 0 <= c < g.ttBlks
      ensures BlockCounted(g, status', vpc'[c], ipc'[c], c)
    {
      BlockInArray(g, c);
      assert BlockCounted(g, status, vpc[c], ipc[c], c);
      var lo, hi := First(g, c), First(g, c) + g.pgsPerBlk;
      if c == b {
        CountNone(status', lo, hi, Valid);
        CountNone(status', lo, hi, Invalid);
      } else {
        BlocksApart(g, b, c);
        CountSame(status, status', lo, hi, Valid);
        CountSame(status, status', lo, hi, Invalid);
      }
    }
  }

  /** Page statuses are kept in one array by page index, block counters by block index. */
  class Nand {
    const g: SsdParams
    const status: array<PgStatus>
    const vpc: array<int>
    const ipc: array<int>
    const eraseCnt: array<int>

    ghost predicate Ok()
      reads this, status, vpc, ipc
    {
      && vpc != ipc && vpc != eraseCnt && ipc != eraseCnt && eraseCnt.Length == g.ttBlks
      && Counted(g, status[..], vpc[..], ipc[..])
    }

    constructor (params: SsdParams)
      ensures Ok() && g == params && status.Length == params.ttPgs
      ensures fresh(status) && fresh(vpc) && fresh(ipc) && fresh(eraseCnt)
      ensures forall i :: 0 <= i < status.Length ==> status[i] == Free
    {
      g := params;
      status := new PgStatus[params.ttPgs](i => Free);
      vpc := new int[params.ttBlks](i => 0);
      ipc := new int[params.ttBlks](i => 0);
      eraseCnt := new int[params.ttBlks](i => 0);
      new;
      forall b | 0 <= b < g.ttBlks
        ensures BlockCounted(g, status[..], vpc[b], ipc[b], b)
      {
        BlockInArray(g, b);
        CountNone(status[..], First(g, b), First(g, b) + g.pgsPerBlk, Valid);
        CountNone(status[..], First(g, b), First(g, b) + g.pgsPerBlk, Invalid);
      }
    }

    /** The page and block part of `mark_page_valid`. */
    method MarkPageValid(p: Ppa)
      requires Ok() && ValidPpa(g, p)
      requires PgIdx(g, p) < status.Length && status[PgIdx(g, p)] == Free
      modifies status, vpc
      ensures Ok()
      ensures status[..] == old(status[..])[PgIdx(g, p) := Valid]
    {
      BlockBounds(g, status[..], vpc[..], ipc[..], p);
      Recounted(g, status[..], vpc[..], ipc[..], p, Valid);
      var i, b := PgIdx(g, p), BlkIdx(g, p);
      ghost var s, v, w := status[..], vpc[..], ipc[..];
      status[i] := Valid;
      assert 0 <= vpc[b] < g.pgsPerBlk;
      vpc[b] := vpc[b] + 1;
      assert status[..] == s[i := Valid] && vpc[..] == v[b := v[b] + 1] && ipc[..] == w == w[b := w[b]];
    }

    /** The page and block part of `mark_page_invalid`. */
    method MarkPageInvalid(p: Ppa)
      requires Ok() && ValidPpa(g, p)
      requires PgIdx(g, p) < status.Length && status[PgIdx(g, p)] == Valid
      modifies status, vpc, ipc
      ensures Ok()
      ensures status[..] == old(status[..])[PgIdx(g, p) := Invalid]
    {
      BlockBounds(g, status[..], vpc[..], ipc[..], p);
      Recounted(g, status[..], vpc[..], ipc[..], p, Invalid);
      var i, b := PgIdx(g, p), BlkIdx(g, p);
      ghost var s, v, w := status[..], vpc[..], ipc[..];
      status[i] := Invalid;
      assert 0 <= ipc[b] < g.pgsPerBlk;
      ipc[b] := ipc[b] + 1;
      assert 0 < vpc[b] <= g.pgsPerBlk;
      vpc[b] := vpc[b] - 1;
      assert status[..] == s[i := Invalid] && vpc[..] == v[b := v[b] - 1] && ipc[..] == w[b := w[b] + 1];
    }

    /** `mark_block_free`: every page of the block becomes free, no other page changes. */
    method MarkBlockFree(p: Ppa)
      requires Ok() && ValidPpa(g, p)
      modifies status, vpc, ipc, eraseCnt
      ensures Ok()
      ensures forall i :: 0 <= i < status.Length ==>
        status[i] == if First(g, BlkIdx(g, p)) <= i < First(g, BlkIdx(g, p)) + g.pgsPerBlk then Free else old(status[i])
      ensures BlkIdx(g, p) < eraseCnt.Length
      ensures eraseCnt[..] == old(eraseCnt[..])[BlkIdx(g, p) := old(eraseCnt[BlkIdx(g, p)]) + 1]
    {
      PgIdxInverse(g, p);
      var b := BlkIdx(g, p);
      BlockInArray(g, b);
      ghost var s, v, w := status[..], vpc[..], ipc[..];
      var first := PgIdx(g, p.(pg := 0));
      PagesOfBlocks(g);
      PageInBlock(g, p.(pg := 0), b);
      for i := 0 to g.pgsPerBlk
        modifies status
        invariant forall k :: 0 <= k < status.Length ==>
          status[k] == if first <= k < first + i then Free else s[k]
      {
        status[first + i] := Free;
      }
      ipc[b] := 0;
      vpc[b] := 0;
      eraseCnt[b] := eraseCnt[b] + 1;
      assert vpc[..] == v[b := 0];
      assert ipc[..] == w[b := 0];
      ErasedCounted(g, s, v, w, b, status[..]);
    }
  }
}
