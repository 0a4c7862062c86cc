/** Physical addresses and the derived sizes of `struct ssdparams` (ssd.h, ssd.c). */
module Geometry {
  import opened Arith

  /** A physical page address; `Unmapped` is the all-ones word UNMAPPED_PPA. */
  datatype Ppa =
    | Unmapped
    | Ppa(ch: nat, lun: nat, pl: nat, blk: nat, pg: nat)

  /** The compile-time device configuration that `ssd_init_params` starts from (ssd_config.h). */
  datatype Config = Config(
    lbaSize: nat, nandChannels: nat, lunsPerNandCh: nat,
    flashPageSize: nat, oneshotPageSize: nat, blksPerPln: nat, blkSize: nat)

  datatype Params = Params(
    secsz: nat, secsPerPg: nat, pgsz: nat,
    pgsPerFlashpg: nat, flashpgsPerBlk: nat,
    pgsPerOneshotpg: nat, oneshotpgsPerBlk: nat,
    pgsPerBlk: nat, blksPerPl: nat, plsPerLun: nat, lunsPerCh: nat, nchs: nat,
    pgsPerPl: nat, pgsPerLun: nat, pgsPerCh: nat, ttPgs: nat,
    blksPerLun: nat, blksPerCh: nat, ttBlks: nat, ttLuns: nat,
    blksPerLine: nat, pgsPerLine: nat, ttLines: nat)

  /** The identities between the derived sizes; every address computation relies on them. */
  ghost predicate Consistent(g: Params) {
    && g.nchs > 0 && g.lunsPerCh > 0 && g.blksPerPl > 0 && g.plsPerLun == 1
    && g.pgsPerFlashpg > 0 && g.pgsPerOneshotpg > 0 && g.oneshotpgsPerBlk > 0
    && g.pgsPerBlk == g.oneshotpgsPerBlk * g.pgsPerOneshotpg
    && g.pgsPerBlk == g.flashpgsPerBlk * g.pgsPerFlashpg
    && g.pgsPerPl == g.blksPerPl * g.pgsPerBlk
    && g.pgsPerLun == g.pgsPerPl
    && g.pgsPerCh == g.lunsPerCh * g.pgsPerLun
    && g.ttPgs == g.nchs * g.pgsPerCh
    && g.blksPerLun == g.blksPerPl
    && g.blksPerCh == g.lunsPerCh * g.blksPerLun
    && g.ttBlks == g.nchs * g.blksPerCh
    && g.ttLuns == g.nchs * g.lunsPerCh
    && g.blksPerLine == g.ttLuns
    && g.pgsPerLine == g.blksPerLine * g.pgsPerBlk
    && g.ttLines == g.blksPerLun
    && g.pgsPerBlk > 0
  }

  /** The "calculated values" of `ssd_init_params`. */
  function Derive(secsz: nat, secsPerPg: nat, pgsz: nat, pgsPerFlashpg: nat, flashpgsPerBlk: nat,
                  pgsPerOneshotpg: nat, oneshotpgsPerBlk: nat, blksPerPl: nat, luns: nat, nchs: nat): (g: Params)
    requires pgsPerFlashpg > 0 && pgsPerOneshotpg > 0 && oneshotpgsPerBlk > 0
    requires flashpgsPerBlk * pgsPerFlashpg == oneshotpgsPerBlk * pgsPerOneshotpg
    requires blksPerPl > 0 && luns > 0 && nchs > 0
    ensures Consistent(g)
  {
    var pgsPerBlk := pgsPerOneshotpg * oneshotpgsPerBlk;
    var pgsPerPl := pgsPerBlk * blksPerPl;
    var pgsPerCh := pgsPerPl * luns;
    var blksPerCh := blksPerPl * luns;
    var ttLuns := luns * nchs;
    Params(
      secsz, secsPerPg, pgsz, pgsPerFlashpg, flashpgsPerBlk, pgsPerOneshotpg, oneshotpgsPerBlk,
      pgsPerBlk, blksPerPl, 1, luns, nchs,
      pgsPerPl, pgsPerPl, pgsPerCh, pgsPerCh * nchs,
      blksPerPl, blksPerCh, blksPerCh * nchs, ttLuns,
      ttLuns, ttLuns * pgsPerBlk, blksPerPl)
  }

  /** `struct ssdparams` as `ssd_init_params` leaves it. */
  type SsdParams = g: Params | Consistent(g)
    ghost witness Derive(512, 8, 4096, 1, 1, 1, 1, 1, 1, 1)

  ghost predicate ValidPpa(g: SsdParams, p: Ppa) {
    p.Ppa? && p.ch < g.nchs && p.lun < g.lunsPerCh && p.pl == 0 && p.blk < g.blksPerPl && p.pg < g.pgsPerBlk
  }

  /** `q` units are the fewest that make up `total`. */
  ghost predicate Least(q: nat, unit: nat, total: nat) {
    q * unit >= total && (q > 0 ==> (q - 1) * unit < total)
  }

  /** One of the number and the size of the blocks is given, the other is the least that covers the share. */
  ghost predicate Sized(c: Config, share: nat, nchs: nat, blksPerPl: nat, blkSize: nat) {
    if c.blksPerPln > 0 then blksPerPl == c.blksPerPln && Least(blkSize, blksPerPl * c.lunsPerNandCh * nchs, share)
    else blkSize == c.blkSize && Least(blksPerPl, blkSize * c.lunsPerNandCh * nchs, share)
  }

  /** The blocks of all dies cover the share. */
  ghost predicate BlocksCover(c: Config, share: nat, nchs: nat, blksPerPl: nat, blkSize: nat) {
    blksPerPl > 0 && blkSize > 0 && blksPerPl * c.lunsPerNandCh * nchs * blkSize >= share
  }

  /** The number and the size of the blocks of a partition with `nchs` channels. */
  method SizeBlocks(c: Config, share: nat, nchs: nat) returns (blksPerPl: nat, blkSize: nat)
    requires share > 0 && nchs > 0 && c.lunsPerNandCh > 0 && (c.blksPerPln > 0 || c.blkSize > 0)
    ensures Sized(c, share, nchs, blksPerPl, blkSize) && BlocksCover(c, share, nchs, blksPerPl, blkSize)
  {
    DiesExist(c, nchs);
    if c.blksPerPln > 0 {
      blksPerPl := c.blksPerPln;
      blkSize := DivRoundUp(share, blksPerPl * c.lunsPerNandCh * nchs);
    } else {
      blkSize := c.blkSize;
      blksPerPl := DivRoundUp(share, blkSize * c.lunsPerNandCh * nchs);
    }
    CoverArith(share, blkSize, blksPerPl, c.lunsPerNandCh, nchs);
  }

  /** A page has 4 KiB in whole sectors, the other pages are as large as configured, and a block has no more of
      them than it takes. */
  ghost predicate PagesSized(c: Config, g: Params, blkSize: nat) {
    && g.secsz == c.lbaSize > 0 && g.secsPerPg == 4096 / c.lbaSize && g.pgsz == g.secsPerPg * c.lbaSize
    && g.pgsPerOneshotpg * g.pgsz == c.oneshotPageSize && g.pgsPerFlashpg * g.pgsz == c.flashPageSize
    && Least(g.oneshotpgsPerBlk, c.oneshotPageSize, blkSize)
  }

  /** `ssd_init_params`: fills the sizes from the configuration, the capacity and the number of
      partitions. The preconditions are its NVMEV_ASSERTs, a non-empty partition and the one plane
      per LUN of every configuration. */
  method InitParams(c: Config, capacity: nat, nparts: nat) returns (g: SsdParams, ghost blkSize: nat)
    requires nparts > 0 && c.nandChannels > 0 && c.nandChannels % nparts == 0
    requires c.lunsPerNandCh > 0
    requires 0 < c.lbaSize <= 4096
    requires c.blksPerPln > 0 || c.blkSize > 0
    requires c.flashPageSize > 0 && c.oneshotPageSize > 0
    requires var pgsz := c.lbaSize * (4096 / c.lbaSize);
             c.oneshotPageSize % pgsz == 0 && c.flashPageSize % pgsz == 0
    requires c.oneshotPageSize % c.flashPageSize == 0
    requires capacity / nparts > 0
    // the pages of one partition hold at least its share of the capacity
    ensures g.ttPgs * g.pgsz >= capacity / nparts
    ensures g.nchs * nparts == c.nandChannels && g.lunsPerCh == c.lunsPerNandCh
    ensures c.blksPerPln > 0 ==> g.ttLines == c.blksPerPln
    ensures Sized(c, capacity / nparts, g.nchs, g.blksPerPl, blkSize) && PagesSized(c, g, blkSize)
  {
    hide Least, Sized, BlocksCover, DivRoundUp;
    var secsPerPg := 4096 / c.lbaSize;
    var pgsz := c.lbaSize * secsPerPg;
    var nchs := c.nandChannels / nparts;
    assert nchs * nparts == c.nandChannels;
    var share := capacity / nparts;
    var blksPerPl, blockSize := SizeBlocks(c, share, nchs);
    blkSize := blockSize;

    var pgsPerOneshotpg := c.oneshotPageSize / pgsz;
    var oneshotpgsPerBlk := DivRoundUp(blockSize, c.oneshotPageSize);
    var pgsPerFlashpg := c.flashPageSize / pgsz;
    var flashpgsPerBlk := (c.oneshotPageSize / c.flashPageSize) * oneshotpgsPerBlk;
    var pgsPerBlk := pgsPerOneshotpg * oneshotpgsPerBlk;
    PagesFill(c, share, nchs, blksPerPl, blockSize, pgsz);
    g := Derive(c.lbaSize, secsPerPg, pgsz, pgsPerFlashpg, flashpgsPerBlk, pgsPerOneshotpg, oneshotpgsPerBlk,
                blksPerPl, c.lunsPerNandCh, nchs);
  }

  lemma FewestUnits(total: nat, unit: nat)
    requires unit > 0
    ensures Least(DivRoundUp(total, unit), unit, total) && DivRoundUp(total, unit) * unit >= total
  {
  }

  lemma DiesExist(c: Config, nchs: nat)
    requires c.lunsPerNandCh > 0 && nchs > 0
    ensures c.blksPerPln > 0 ==> c.blksPerPln * c.lunsPerNandCh * nchs > 0
    ensures c.blkSize > 0 ==> c.blkSize * c.lunsPerNandCh * nchs > 0
  {
    if c.blksPerPln > 0 {
      PositiveProduct(c.blksPerPln, c.lunsPerNandCh);
    }
    if c.blkSize > 0 {
      PositiveProduct(c.blkSize, c.lunsPerNandCh);
    }
  }

  /** The pages fill the other pages, the blocks and, with enough blocks, the share. */
  lemma PagesFill(c: Config, share: nat, nchs: nat, blksPerPl: nat, blkSize: nat, pgsz: nat)
    requires c.oneshotPageSize > 0 && c.flashPageSize > 0 && pgsz > 0 && BlocksCover(c, share, nchs, blksPerPl, blkSize)
    requires c.oneshotPageSize % pgsz == 0 && c.flashPageSize % pgsz == 0 && c.oneshotPageSize % c.flashPageSize == 0
    ensures var oneshot, flash, n := c.oneshotPageSize / pgsz, c.flashPageSize / pgsz, DivRoundUp(blkSize, c.oneshotPageSize);
      && oneshot > 0 && flash > 0 && n > 0 && blksPerPl > 0
      && oneshot * pgsz == c.oneshotPageSize && flash * pgsz == c.flashPageSize
      && ((c.oneshotPageSize / c.flashPageSize) * n) * flash == n * oneshot
      && Least(n, c.oneshotPageSize, blkSize)
      && ((((oneshot * n) * blksPerPl) * c.lunsPerNandCh) * nchs) * pgsz >= share
  {
    hide Least, DivRoundUp;
    var oneshot, n := c.oneshotPageSize / pgsz, DivRoundUp(blkSize, c.oneshotPageSize);
    FlashPagesFill(c.oneshotPageSize, c.flashPageSize, pgsz, n);
    FewestUnits(blkSize, c.oneshotPageSize);
    WholeParts(c.oneshotPageSize, pgsz);
    WholeParts(c.flashPageSize, pgsz);
    BlockHolds(oneshot, n, pgsz, blkSize);
    CapacityArith(share, blkSize, blksPerPl, c.lunsPerNandCh, nchs, oneshot * n, pgsz);
  }

  lemma WholeParts(a: nat, b: nat)
    requires b > 0 && a % b == 0
    ensures (a / b) * b == a
  {
  }

  lemma BlockHolds(oneshot: nat, n: nat, pgsz: nat, blkSize: nat)
    requires n * (oneshot * pgsz) >= blkSize > 0
    ensures n > 0 && (oneshot * n) * pgsz >= blkSize
  {
    MulAssoc(n, oneshot, pgsz);
  }

  lemma CoverArith(share: nat, blkSize: nat, blks: nat, luns: nat, nchs: nat)
    requires share > 0 && luns > 0 && nchs > 0
    requires blkSize * (blks * luns * nchs) >= share || blks * (blkSize * luns * nchs) >= share
    ensures blkSize > 0 && blks > 0
    ensures blks * luns * nchs * blkSize >= share
  {
    assert blkSize * (blks * luns * nchs) == blks * luns * nchs * blkSize;
    assert blks * (blkSize * luns * nchs) == blks * luns * nchs * blkSize;
    PositiveFactors(blks * luns * nchs, blkSize);
    PositiveFactors(blks * luns, nchs);
    PositiveFactors(blks, luns);
  }

  lemma CapacityArith(share: nat, blkSize: nat, blks: nat, luns: nat, nchs: nat, pgsPerBlk: nat, pgsz: nat)
    requires blks * luns * nchs * blkSize >= share
    requires pgsPerBlk * pgsz >= blkSize
    ensures (((pgsPerBlk * blks) * luns) * nchs) * pgsz >= share
  {
    var k := blks * luns * nchs;
    assert k * (pgsPerBlk * pgsz) >= k * blkSize;
    assert (((pgsPerBlk * blks) * luns) * nchs) * pgsz == k * (pgsPerBlk * pgsz);
  }

  lemma FlashPagesFill(oneshot: nat, flash: nat, pgsz: nat, n: nat)
    requires pgsz > 0 && flash > 0 && oneshot > 0
    requires oneshot % pgsz == 0 && flash % pgsz == 0 && oneshot % flash == 0
    ensures flash / pgsz > 0 && oneshot / pgsz > 0
    ensures ((oneshot / flash) * n) * (flash / pgsz) == n * (oneshot / pgsz)
  {
    var f, k := flash / pgsz, oneshot / flash;
    assert flash == f * pgsz && oneshot == k * flash;
    assert oneshot == (k * f) * pgsz + 0;
    DigitsUnique(k * f, 0, pgsz);
    assert oneshot / pgsz == k * f;
  }

  // ---------- page and block indices ----------

  /** `ppa2pgidx` */
  function PgIdx(g: SsdParams, p: Ppa): nat
    requires p.Ppa?
  {
    p.ch * g.pgsPerCh + p.lun * g.pgsPerLun + p.pl * g.pgsPerPl + p.blk * g.pgsPerBlk + p.pg
  }

  /** The place of a page's block when all blocks are numbered channel by channel. */
  function BlkIdx(g: SsdParams, p: Ppa): nat
    requires p.Ppa?
  {
    p.ch * g.blksPerCh + p.lun * g.blksPerLun + p.blk
  }

  /** The address with a given page index. */
  function PpaOfIdx(g: SsdParams, idx: nat): Ppa
  {
    var b := Div(idx, g.pgsPerBlk);
    var d := Div(b, g.blksPerPl);
    Ppa(Div(d, g.lunsPerCh), Mod(d, g.lunsPerCh), 0, Mod(b, g.blksPerPl), Mod(idx, g.pgsPerBlk))
  }

  lemma PgIdxDigits(g: SsdParams, p: Ppa)
    requires ValidPpa(g, p)
    ensures BlkIdx(g, p) == (p.ch * g.lunsPerCh + p.lun) * g.blksPerPl + p.blk
    ensures PgIdx(g, p) == BlkIdx(g, p) * g.pgsPerBlk + p.pg
  {
    PagesOfBlocks(g);
    MulAssoc(p.ch, g.blksPerCh, g.pgsPerBlk);
    MulAssoc(p.lun, g.blksPerLun, g.pgsPerBlk);
    var c, l := p.ch * g.blksPerCh, p.lun * g.blksPerLun;
    Distribute3(c, l, p.blk, g.pgsPerBlk);
    MulAssoc(p.ch, g.lunsPerCh, g.blksPerPl);
    Distribute(p.ch * g.lunsPerCh, p.lun, g.blksPerPl);
  }

  /** Blocks of different dies or different blocks of a die have different numbers. */
  lemma BlkIdxUnique(g: SsdParams, a: Ppa, b: Ppa)
    requires ValidPpa(g, a) && ValidPpa(g, b)
    ensures BlkIdx(g, a) == BlkIdx(g, b) <==> (a.ch, a.lun, a.blk) == (b.ch, b.lun, b.blk)
  {
    PgIdxDigits(g, a);
    PgIdxDigits(g, b);
    hide PgIdx, BlkIdx;
    var k := g.blksPerPl;
    DigitsUnique(MulAdd(a.ch, g.lunsPerCh, a.lun), a.blk, k);
    DigitsUnique(MulAdd(b.ch, g.lunsPerCh, b.lun), b.blk, k);
    DigitsUnique(a.ch, a.lun, g.lunsPerCh);
    DigitsUnique(b.ch, b.lun, g.lunsPerCh);
  }

  lemma Distribute3(a: nat, b: nat, c: nat, k: nat)
    ensures (a + b + c) * k == a * k + b * k + c * k
  {
  }

  /** Page counts are block counts times `pgs_per_blk`. */
  lemma PagesOfBlocks(g: SsdParams)
    ensures g.pgsPerCh == g.blksPerCh * g.pgsPerBlk
    ensures g.ttPgs == g.ttBlks * g.pgsPerBlk
    ensures g.ttBlks == g.ttLuns * g.blksPerPl
    ensures g.pgsPerBlk > 0
  {
    MulAssoc(g.lunsPerCh, g.blksPerLun, g.pgsPerBlk);
    MulAssoc(g.nchs, g.blksPerCh, g.pgsPerBlk);
    MulAssoc(g.nchs, g.lunsPerCh, g.blksPerLun);
    PositiveProduct(g.oneshotpgsPerBlk, g.pgsPerOneshotpg);
  }

  /** `ppa2pgidx` maps valid addresses into [0, tt_pgs) and is undone by `PpaOfIdx`,
      so its NVMEV_ASSERT holds and it is injective. */
  lemma PgIdxInverse(g: SsdParams, p: Ppa)
    requires ValidPpa(g, p)
    ensures PgIdx(g, p) < g.ttPgs
    ensures BlkIdx(g, p) < g.ttBlks
    ensures g.pgsPerBlk > 0 && PpaOfIdx(g, PgIdx(g, p)) == p
  {
    var d := p.ch * g.lunsPerCh + p.lun;
    var b := d * g.blksPerPl + p.blk;
    PgIdxDigits(g, p);
    DigitsBounded(p.ch, p.lun, g.nchs, g.lunsPerCh);
    DigitsBounded(d, p.blk, g.ttLuns, g.blksPerPl);
    PagesOfBlocks(g);
    DigitsBounded(b, p.pg, g.ttBlks, g.pgsPerBlk);
    DigitsUnique(b, p.pg, g.pgsPerBlk);
    DigitsUnique(d, p.blk, g.blksPerPl);
    DigitsUnique(p.ch, p.lun, g.lunsPerCh);
  }

  /** ... and every index in [0, tt_pgs) is the index of a valid address. */
  lemma PgIdxOnto(g: SsdParams, idx: nat)
    requires idx < g.ttPgs
    ensures g.pgsPerBlk > 0 && ValidPpa(g, PpaOfIdx(g, idx))
    ensures PgIdx(g, PpaOfIdx(g, idx)) == idx
  {
    PagesOfBlocks(g);
    SplitDigits(idx, g.ttBlks, g.pgsPerBlk);
    var b := idx / g.pgsPerBlk;
    SplitDigits(b, g.ttLuns, g.blksPerPl);
    SplitDigits(b / g.blksPerPl, g.nchs, g.lunsPerCh);
    PgIdxDigits(g, PpaOfIdx(g, idx));
  }

  // ---------- the order in which a line is written ----------

  /** How many pages of its line are written before this one. */
  function WriteOrder(g: SsdParams, ch: nat, lun: nat, pg: nat): nat
  {
    var wordline := Div(pg, g.pgsPerOneshotpg);
    MulAdd(MulAdd(MulAdd(wordline, g.lunsPerCh, lun), g.nchs, ch), g.pgsPerOneshotpg, Mod(pg, g.pgsPerOneshotpg))
  }

  /** The `n`-th page of a line in write order. */
  function PpaAt(g: SsdParams, line: nat, n: nat): Ppa
  {
    var q := Div(n, g.pgsPerOneshotpg);
    var r := Div(q, g.nchs);
    Ppa(Mod(q, g.nchs), Mod(r, g.lunsPerCh), 0, line,
        MulAdd(Div(r, g.lunsPerCh), g.pgsPerOneshotpg, Mod(n, g.pgsPerOneshotpg)))
  }

  lemma LineSize(g: SsdParams)
    ensures g.pgsPerLine == ((g.oneshotpgsPerBlk * g.lunsPerCh) * g.nchs) * g.pgsPerOneshotpg
    ensures g.pgsPerLine == ((g.flashpgsPerBlk * g.nchs) * g.lunsPerCh) * g.pgsPerFlashpg
    ensures g.pgsPerLine > 0
    ensures g.ttPgs == g.ttLines * g.pgsPerLine
  {
    var dies := g.nchs * g.lunsPerCh;
    PositiveProduct(g.nchs, g.lunsPerCh);
    PagesOfBlocks(g);
    PositiveProduct(dies, g.pgsPerBlk);
    LineFactors(g.oneshotpgsPerBlk, g.lunsPerCh, g.nchs, g.pgsPerOneshotpg);
    LineFactors(g.flashpgsPerBlk, g.nchs, g.lunsPerCh, g.pgsPerFlashpg);
    MulAssoc(g.blksPerPl, dies, g.pgsPerBlk);
  }

  lemma LineFactors(k: nat, a: nat, b: nat, p: nat)
    ensures (a * b) * (k * p) == ((k * a) * b) * p
  {
    MulAssoc(k, a, b);
    MulAssoc(a * b, k, p);
  }

  /** Write order numbers the pages of a line by [0, pgs_per_line). */
  lemma WriteOrderInverse(g: SsdParams, p: Ppa)
    requires ValidPpa(g, p)
    ensures WriteOrder(g, p.ch, p.lun, p.pg) < g.pgsPerLine
    ensures PpaAt(g, p.blk, WriteOrder(g, p.ch, p.lun, p.pg)) == p
  {
    LineSize(g);
    SplitDigits(p.pg, g.oneshotpgsPerBlk, g.pgsPerOneshotpg);
    var w, i := p.pg / g.pgsPerOneshotpg, p.pg % g.pgsPerOneshotpg;
    DigitsBounded(w, p.lun, g.oneshotpgsPerBlk, g.lunsPerCh);
    var r := w * g.lunsPerCh + p.lun;
    DigitsBounded(r, p.ch, g.oneshotpgsPerBlk * g.lunsPerCh, g.nchs);
    var q := r * g.nchs + p.ch;
    DigitsBounded(q, i, (g.oneshotpgsPerBlk * g.lunsPerCh) * g.nchs, g.pgsPerOneshotpg);
    DigitsUnique(q, i, g.pgsPerOneshotpg);
    DigitsUnique(r, p.ch, g.nchs);
    DigitsUnique(w, p.lun, g.lunsPerCh);
  }

  lemma WriteOrderOnto(g: SsdParams, line: nat, n: nat)
    requires line < g.ttLines && n < g.pgsPerLine
    ensures ValidPpa(g, PpaAt(g, line, n))
    ensures var p := PpaAt(g, line, n); WriteOrder(g, p.ch, p.lun, p.pg) == n
  {
    hide Div, Mod, MulAdd;
    LineSize(g);
    SplitMulAdd(n, (g.oneshotpgsPerBlk * g.lunsPerCh) * g.nchs, g.pgsPerOneshotpg);
    var q, i := Div(n, g.pgsPerOneshotpg), Mod(n, g.pgsPerOneshotpg);
    SplitMulAdd(q, g.oneshotpgsPerBlk * g.lunsPerCh, g.nchs);
    SplitMulAdd(Div(q, g.nchs), g.oneshotpgsPerBlk, g.lunsPerCh);
    JoinMulAdd(Div(Div(q, g.nchs), g.lunsPerCh), i, g.oneshotpgsPerBlk, g.pgsPerOneshotpg);
  }

  /** Page `n` in write order: the pages of a oneshot page lie together, and the oneshot pages go round the channels
      first, then round the LUNs, then up the blocks. */
  lemma WriteOrderExact(g: SsdParams, line: nat, n: nat)
    ensures var o, row := g.pgsPerOneshotpg, g.pgsPerOneshotpg * g.nchs;
      && row > 0 && row * g.lunsPerCh > 0
      && PpaAt(g, line, n) == Ppa(Mod(Div(n, o), g.nchs), Mod(Div(n, row), g.lunsPerCh), 0, line,
                                   MulAdd(Div(n, row * g.lunsPerCh), o, Mod(n, o)))
  {
    hide Div, Mod, MulAdd;
    var o := g.pgsPerOneshotpg;
    NestedDiv(n, o, g.nchs);
    NestedDiv(n, o * g.nchs, g.lunsPerCh);
  }

  /** A position of the write pointer inside a line. */
  datatype Position = Position(ch: nat, lun: nat, pg: nat)

  /** The counters of `advance_write_pointer`; the flag says that the line is used up. */
  function NextPosition(g: SsdParams, p: Position): (r: (Position, bool))
    requires (p.pg + 1) % g.pgsPerOneshotpg == 0 ==> p.pg + 1 >= g.pgsPerOneshotpg
  {
    var pg := p.pg + 1;
    if pg % g.pgsPerOneshotpg != 0 then (p.(pg := pg), false)
    else
      var pg := pg - g.pgsPerOneshotpg;
      var ch := p.ch + 1;
      if ch != g.nchs then (Position(ch, p.lun, pg), false)
      else
        var lun := p.lun + 1;
        if lun != g.lunsPerCh then (Position(0, lun, pg), false)
        else
          var pg := pg + g.pgsPerOneshotpg;
          if pg != g.pgsPerBlk then (Position(0, 0, pg), false)
          else (Position(0, 0, 0), true)
  }

  /** One advance moves to the next page in write order, and signals the end of the line exactly
      after its last page. */
  lemma NextPositionStep(g: SsdParams, blk: nat, p: Position)
    requires ValidPpa(g, Ppa(p.ch, p.lun, 0, blk, p.pg))
    ensures (p.pg + 1) % g.pgsPerOneshotpg == 0 ==> p.pg + 1 >= g.pgsPerOneshotpg
    ensures var (q, full) := NextPosition(g, p);
      var n := WriteOrder(g, p.ch, p.lun, p.pg);
      && n < g.pgsPerLine
      && (full <==> n + 1 == g.pgsPerLine)
      && (full ==> q == Position(0, 0, 0))
      && (!full ==> ValidPpa(g, Ppa(q.ch, q.lun, 0, blk, q.pg)) && WriteOrder(g, q.ch, q.lun, q.pg) == n + 1)
  {
    var size := g.pgsPerOneshotpg;
    SplitDigits(p.pg, g.oneshotpgsPerBlk, size);
    var w, i := p.pg / size, p.pg % size;
    WriteOrderInverse(g, Ppa(p.ch, p.lun, 0, blk, p.pg));
    if i + 1 < size {
      DigitsUnique(w, i + 1, size);
      DigitsBounded(w, i + 1, g.oneshotpgsPerBlk, size);
      WriteOrderInverse(g, Ppa(p.ch, p.lun, 0, blk, p.pg + 1));
    } else {
      OneshotPageDone(g, blk, p, w);
    }
  }

  lemma OneshotPageDone(g: SsdParams, blk: nat, p: Position, w: nat)
    requires ValidPpa(g, Ppa(p.ch, p.lun, 0, blk, p.pg))
    requires w < g.oneshotpgsPerBlk && p.pg + 1 == w * g.pgsPerOneshotpg + g.pgsPerOneshotpg
    requires p.pg / g.pgsPerOneshotpg == w && p.pg % g.pgsPerOneshotpg + 1 == g.pgsPerOneshotpg
    ensures (p.pg + 1) % g.pgsPerOneshotpg == 0
    ensures var (q, full) := NextPosition(g, p);
      var n := WriteOrder(g, p.ch, p.lun, p.pg);
      && (full <==> n + 1 == g.pgsPerLine)
      && (full ==> q == Position(0, 0, 0))
      && (!full ==> ValidPpa(g, Ppa(q.ch, q.lun, 0, blk, q.pg)) && WriteOrder(g, q.ch, q.lun, q.pg) == n + 1)
  {
    var size := g.pgsPerOneshotpg;
    var base := w * size;
    Distribute(w, 1, size);
    DigitsUnique(w + 1, 0, size);
    DigitsUnique(w, 0, size);
    NextWordline(g, w, p.lun, p.ch, size - 1);
    LineSize(g);
    if p.ch + 1 != g.nchs {
      WriteOrderInverse(g, Ppa(p.ch + 1, p.lun, 0, blk, base));
    } else if p.lun + 1 != g.lunsPerCh {
      WriteOrderInverse(g, Ppa(0, p.lun + 1, 0, blk, base));
    } else if p.pg + 1 != g.pgsPerBlk {
      if g.oneshotpgsPerBlk < w + 1 + 1 {
        assert false;
      }
      DigitsBounded(w + 1, 0, g.oneshotpgsPerBlk, size);
      WriteOrderInverse(g, Ppa(0, 0, 0, blk, base + size));
    } else {
      QuotientUnique(w + 1, 0, g.oneshotpgsPerBlk, 0, size);
    }
  }

  /** Carrying from the last page of a oneshot page into the channel, LUN and wordline digits. */
  lemma NextWordline(g: SsdParams, w: nat, lun: nat, ch: nat, i: nat)
    requires i + 1 == g.pgsPerOneshotpg
    ensures var n := ((w * g.lunsPerCh + lun) * g.nchs + ch) * g.pgsPerOneshotpg + i;
      && n + 1 == ((w * g.lunsPerCh + lun) * g.nchs + (ch + 1)) * g.pgsPerOneshotpg
      && (ch + 1 == g.nchs ==> n + 1 == ((w * g.lunsPerCh + (lun + 1)) * g.nchs) * g.pgsPerOneshotpg)
      && (ch + 1 == g.nchs && lun + 1 == g.lunsPerCh ==>
            n + 1 == (((w + 1) * g.lunsPerCh) * g.nchs) * g.pgsPerOneshotpg)
  {
    var a := w * g.lunsPerCh + lun;
    assert (a * g.nchs + ch) * g.pgsPerOneshotpg + i + 1 == (a * g.nchs + (ch + 1)) * g.pgsPerOneshotpg;
    if ch + 1 == g.nchs {
      assert a * g.nchs + g.nchs == (a + 1) * g.nchs;
      if lun + 1 == g.lunsPerCh {
        assert a + 1 == (w + 1) * g.lunsPerCh;
      }
    }
  }

  // ---------- the order in which GC scans a line ----------

  /** When the GC loop nest (flash page, channel, LUN, page in flash page) visits a page. */
  function ScanOrder(g: SsdParams, ch: nat, lun: nat, pg: nat): nat
  {
    var flashpg := Div(pg, g.pgsPerFlashpg);
    MulAdd(MulAdd(MulAdd(flashpg, g.nchs, ch), g.lunsPerCh, lun), g.pgsPerFlashpg, Mod(pg, g.pgsPerFlashpg))
  }

  /** The page of a line that the GC loop nest visits `k`-th. */
  function ScanPpa(g: SsdParams, line: nat, k: nat): Ppa
  {
    var q := Div(k, g.pgsPerFlashpg);
    var r := Div(q, g.lunsPerCh);
    Ppa(Mod(r, g.nchs), Mod(q, g.lunsPerCh), 0, line,
        MulAdd(Div(r, g.nchs), g.pgsPerFlashpg, Mod(k, g.pgsPerFlashpg)))
  }

  /** Page `k` of the scan: the pages of a flash page lie together, and the flash pages go round the LUNs of a channel
      first, then round the channels, then up the blocks. */
  lemma ScanOrderExact(g: SsdParams, line: nat, k: nat)
    ensures var f, col := g.pgsPerFlashpg, g.pgsPerFlashpg * g.lunsPerCh;
      && col > 0 && col * g.nchs > 0
      && ScanPpa(g, line, k) == Ppa(Mod(Div(k, col), g.nchs), Mod(Div(k, f), g.lunsPerCh), 0, line,
                                    MulAdd(Div(k, col * g.nchs), f, Mod(k, f)))
  {
    hide Div, Mod, MulAdd;
    var f := g.pgsPerFlashpg;
    NestedDiv(k, f, g.lunsPerCh);
    NestedDiv(k, f * g.lunsPerCh, g.nchs);
  }

  /** The loop nest visits every page of the line ... */
  lemma ScanOrderInverse(g: SsdParams, p: Ppa)
    requires ValidPpa(g, p)
    ensures ScanOrder(g, p.ch, p.lun, p.pg) < g.pgsPerLine
    ensures ScanPpa(g, p.blk, ScanOrder(g, p.ch, p.lun, p.pg)) == p
  {
    LineSize(g);
    SplitDigits(p.pg, g.flashpgsPerBlk, g.pgsPerFlashpg);
    var f, i := p.pg / g.pgsPerFlashpg, p.pg % g.pgsPerFlashpg;
    DigitsBounded(f, p.ch, g.flashpgsPerBlk, g.nchs);
    var r := f * g.nchs + p.ch;
    DigitsBounded(r, p.lun, g.flashpgsPerBlk * g.nchs, g.lunsPerCh);
    var q := r * g.lunsPerCh + p.lun;
    DigitsBounded(q, i, (g.flashpgsPerBlk * g.nchs) * g.lunsPerCh, g.pgsPerFlashpg);
    DigitsUnique(q, i, g.pgsPerFlashpg);
    DigitsUnique(r, p.lun, g.lunsPerCh);
    DigitsUnique(f, p.ch, g.nchs);
  }

  /** ... and visits none twice. */
  lemma ScanOrderOnto(g: SsdParams, line: nat, k: nat)
    requires line < g.ttLines && k < g.pgsPerLine
    ensures ValidPpa(g, ScanPpa(g, line, k))
    ensures var p := ScanPpa(g, line, k); ScanOrder(g, p.ch, p.lun, p.pg) == k
  {
    hide Div, Mod, MulAdd;
    LineSize(g);
    SplitMulAdd(k, (g.flashpgsPerBlk * g.nchs) * g.lunsPerCh, g.pgsPerFlashpg);
    var q, i := Div(k, g.pgsPerFlashpg), Mod(k, g.pgsPerFlashpg);
    SplitMulAdd(q, g.flashpgsPerBlk * g.nchs, g.lunsPerCh);
    SplitMulAdd(Div(q, g.lunsPerCh), g.flashpgsPerBlk, g.nchs);
    JoinMulAdd(Div(Div(q, g.lunsPerCh), g.nchs), i, g.flashpgsPerBlk, g.pgsPerFlashpg);
  }
}
