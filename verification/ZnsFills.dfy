/** On which devices some write fills a zone that holds a ZRWA, and so keeps its resource for ever. */
module ZnsFills {
  import opened Arith
  import opened ZnsModel
  import opened ZnsRuns

  /** The longest write that can take the write pointer of a zone with ZRWA exactly to its end. Write pointers move by
      whole granules, and a write ends at most two ZRWAs behind the write pointer. */
  function FillRoom(p: Params): int {
    var size, zrwa, g := p.zoneLbas, p.lbasPerZrwa, p.lbasPerFg;
    if g == 0 then (if size <= zrwa then size else 0)
    else if zrwa == 0 then (if Mod(size, g) == 0 then size else 0)
    else if zrwa < g then
      (if Mod(size, g) == 0 then Min(2 * zrwa, g) else if Mod(size, g) <= zrwa then Mod(size, g) else 0)
    else if size <= zrwa then size
    else size - DivRoundUp(size - zrwa, g) * g
  }

  /** The write unit allows a write that long. */
  ghost predicate CanFill(p: Params)
    requires Consistent(p)
  {
    exists nr: nat :: 0 < nr <= FillRoom(p) && Aligned(p, nr)
  }

  // ---------- a filling write is no longer than that ----------

  /** The write pointer of a zone with ZRWA is at the start of a granule, or past the end of the zone. */
  predicate OnGrid(p: Params, zid: nat, z: Zone) {
    z.zrwav ==>
      && z.wp >= Start(p, zid)
      && (z.wp >= End(p, zid)
          || (if p.lbasPerFg == 0 then z.wp == Start(p, zid) else Mod(z.wp - Start(p, zid), p.lbasPerFg) == 0))
  }

  lemma StartOnGrid(p: Params, zid: nat, z: Zone)
    requires z.wp == Start(p, zid)
    ensures OnGrid(p, zid, z)
  {
    if p.lbasPerFg > 0 {
      DigitsUnique(0, 0, p.lbasPerFg);
    }
  }

  lemma ExplicitOnGrid(p: Params, zid: nat, z: Zone, c: Counters, slba: nat)
    requires Consistent(p) && Start(p, zid) <= z.wp && OnGrid(p, zid, z)
    ensures OnGrid(p, zid, FlushZrwa(p, zid, z, c, slba).zone)
  {
    hide Pred64;
    if z.zrwav && z.wp <= slba <= ZrwaEnd(p, zid, z.wp) && p.lbasPerFg > 0 {
      var n := slba - z.wp + 1;
      if n % p.lbasPerFg == 0 {
        var k := Div(n, p.lbasPerFg);
        assert n == k * p.lbasPerFg;
        MoreGranules(z.wp - Start(p, zid), k, p.lbasPerFg);
      }
    }
  }

  lemma WriteOnGrid(p: Params, cmd: Command, zid: nat, z: Zone, c: Counters)
    requires Consistent(p) && cmd.Write? && cmd.nr > 0 && Addressed(p, cmd, zid) && Start(p, zid) <= z.wp && z.zrwav
    requires OnGrid(p, zid, z)
    ensures OnGrid(p, zid, WriteZrwa(p, zid, z, c, cmd.lba, cmd.nr, cmd.flushOk).zone)
  {
    var elba := cmd.lba + cmd.nr - 1;
    assert cmd.lba == zid * p.zoneLbas + cmd.lba % p.zoneLbas;
    if z.wp <= cmd.lba && elba >= z.wp + p.lbasPerZrwa && p.lbasPerFg > 0 {
      var x := elba - (z.wp + p.lbasPerZrwa) + 1;
      MoreGranules(z.wp - Start(p, zid), DivRoundUp(x, p.lbasPerFg), p.lbasPerFg);
    }
    hide InOneZone, Aligned, Pred64, DivRoundUp, Mod;
  }

  lemma OthersOnGrid(p: Params, cmd: Command, zid: nat, z: Zone, c: Counters)
    requires Consistent(p) && WellFormed(cmd) && ZoneOk(p, zid, z) && !cmd.Flush? && !(cmd.Write? && z.zrwav)
    requires OnGrid(p, zid, z)
    ensures OnGrid(p, zid, ZoneEffect(p, cmd, zid, z, c).zone)
  {
    StartOnGrid(p, zid, z.(wp := Start(p, zid), state := Empty));
    StartOnGrid(p, zid, z.(wp := Start(p, zid), zrwav := true));
    hide InOneZone, Aligned, Mod;
  }

  lemma KeepsGrid(p: Params, cmd: Command, zid: nat, z: Zone, c: Counters)
    requires Consistent(p) && WellFormed(cmd) && Addressed(p, cmd, zid) && ZoneOk(p, zid, z) && OnGrid(p, zid, z)
    ensures OnGrid(p, zid, ZoneEffect(p, cmd, zid, z, c).zone)
  {
    hide WriteZrwa, FlushZrwa, WritePlain, OpenZone, OnGrid;
    if cmd.Flush? {
      ExplicitOnGrid(p, zid, z, c, cmd.flushLba);
    } else if cmd.Write? && z.zrwav {
      WriteOnGrid(p, cmd, zid, z, c);
    } else {
      OthersOnGrid(p, cmd, zid, z, c);
    }
  }

  /** A rounded number is less than a granule larger. */
  lemma RoundedUp(x: nat, g: nat)
    requires g > 0
    ensures x <= DivRoundUp(x, g) * g < x + g
    ensures 0 < x <= g ==> DivRoundUp(x, g) * g == g
  {
    var q := DivRoundUp(x, g);
    if q > 0 {
      Distribute(q - 1, 1, g);
    }
    if 0 < x <= g {
      DigitsUnique(1, x - 1, g);
    }
  }

  /** The sum of whole granules. */
  lemma WholeGranules(size: nat, w: nat, k: nat, g: nat)
    requires g > 0 && Mod(w, g) == 0 && w + k * g == size
    ensures Mod(size, g) == 0
  {
    MoreGranules(w, k, g);
  }

  /** What is left of a size behind whole granules, if it is less than a granule. */
  lemma LeftOver(size: nat, w: nat, g: nat)
    requires g > 0 && Mod(w, g) == 0 && w <= size < w + g
    ensures Mod(size, g) == size - w
  {
    assert w == Div(w, g) * g;
    DigitsUnique(Div(w, g), size - w, g);
  }

  /** As few granules as leave no more than `zrwa`. */
  lemma FewestGranules(size: nat, w: nat, g: nat, zrwa: nat)
    requires g > 0 && Mod(w, g) == 0 && zrwa < size <= w + zrwa
    ensures DivRoundUp(size - zrwa, g) * g <= w
  {
    var q, m := DivRoundUp(size - zrwa, g), Div(w, g);
    assert w == m * g;
    if m < q {
      MulMono(m, q - 1, g);
      RoundedUp(size - zrwa, g);
      Distribute(q - 1, 1, g);
      assert false;
    }
    MulMono(q, m, g);
  }

  /** An implicit flush behind the ZRWA that ends at the end of the zone. */
  lemma RoundedFill(size: nat, w: nat, e: nat, g: nat, zrwa: nat)
    requires g > 0 && Mod(w, g) == 0 && w + zrwa <= e < size && w + DivRoundUp(e - (w + zrwa) + 1, g) * g == size
    ensures Mod(size, g) == 0 && zrwa < g
    ensures zrwa > 0 && e < w + 2 * zrwa ==> e - w + 1 <= 2 * zrwa && e - w + 1 <= g
  {
    var x := e - (w + zrwa) + 1;
    RoundedUp(x, g);
    WholeGranules(size, w, DivRoundUp(x, g), g);
  }

  lemma FillNeeds(p: Params, cmd: Command, zid: nat, z: Zone, c: Counters)
    requires Consistent(p) && WellFormed(cmd) && Addressed(p, cmd, zid) && ZoneOk(p, zid, z) && OnGrid(p, zid, z)
    requires FillsZrwa(p, cmd, zid, z, c)
    ensures CanFill(p)
  {
    hide InOneZone, Aligned, DivRoundUp, Mod, ZoneOk;
    assert cmd.lba == zid * p.zoneLbas + cmd.lba % p.zoneLbas;
    StaysInZone(p, zid, cmd.lba, cmd.nr);
    var size, zrwa, g := p.zoneLbas, p.lbasPerZrwa, p.lbasPerFg;
    var w, e := z.wp - Start(p, zid), cmd.lba + cmd.nr - 1 - Start(p, zid);
    if e >= w + zrwa {
      RoundedFill(size, w, e, g, zrwa);
    } else if g > 0 {
      if zrwa < g {
        LeftOver(size, w, g);
      } else if size > zrwa {
        FewestGranules(size, w, g, zrwa);
      }
    }
    assert cmd.nr <= FillRoom(p);
  }

  // ---------- runs ----------

  /** Every zone is on the grid, and without the two conditions no zone has been filled. */
  ghost predicate GridSafe(p: Params, m: Machine)
    requires Consistent(p)
  {
    && |m.zones| == p.nrZones
    && (forall i: nat :: i < |m.zones| ==> OnGrid(p, i, m.zones[i]))
    && (!CanOpenZrwa(p) ==> forall i: nat :: i < |m.zones| ==> !m.zones[i].zrwav)
    && (!CanOpenZrwa(p) || !CanFill(p) ==> m.fills == 0)
  }

  lemma ApplyGrid(p: Params, m: Machine, cmd: Command, zid: nat)
    requires Consistent(p) && WellFormed(cmd) && Addressed(p, cmd, zid) && Inv(p, m) && zid < |m.zones|
    requires GridSafe(p, m)
    ensures GridSafe(p, Apply(p, m, cmd, zid))
  {
    var z := m.zones[zid];
    KeepsGrid(p, cmd, zid, z, m.counters);
    if !CanOpenZrwa(p) {
      ZrwaNeedsTotals(p, cmd, zid, z, m.counters);
    }
    if FillsZrwa(p, cmd, zid, z, m.counters) {
      FillNeeds(p, cmd, zid, z, m.counters);
    }
    hide ZoneEffect, ZoneOk, TilesOk, NewTiles, CanFill, CanOpenZrwa, CountZones, OnGrid, GetsToFlush, ImplicitFlush;
  }

  lemma ApplyAllGrid(p: Params, m: Machine, cmd: Command, n: nat)
    requires Consistent(p) && !cmd.Write? && n <= p.nrZones && Inv(p, m) && GridSafe(p, m)
    ensures GridSafe(p, ApplyAll(p, m, cmd, n))
  {
    hide Apply, GridSafe, TilesOk, ZoneOk, Counted, WithinLimits;
    if n > 0 {
      ApplyAllGrid(p, m, cmd, n - 1);
      ApplyGrid(p, ApplyAll(p, m, cmd, n - 1), ForZone(p, cmd, n - 1), n - 1);
    }
  }

  lemma ServeGrid(p: Params, m: Machine, r: Request)
    requires Consistent(p) && Accepted(p, r) && Inv(p, m) && GridSafe(p, m)
    ensures GridSafe(p, Serve(p, m, r))
  {
    hide Apply, ApplyAll, GridSafe;
    match r
    case ForLba(cmd, lba) => ApplyGrid(p, m, cmd, ZoneOf(p, lba));
    case ForAll(cmd) => ApplyAllGrid(p, m, cmd, p.nrZones);
  }

  lemma InitGrid(p: Params)
    requires Consistent(p)
    ensures GridSafe(p, Init(p))
  {
    hide OnGrid, CanOpenZrwa, CanFill;
    forall i: nat | i < p.nrZones
      ensures OnGrid(p, i, Init(p).zones[i])
    {
      StartOnGrid(p, i, Init(p).zones[i]);
    }
  }

  lemma {:induction false} RunGrid(p: Params, requests: seq<Request>)
    requires Consistent(p) && AllAccepted(p, requests)
    ensures GridSafe(p, ServeAll(p, requests))
  {
    hide Apply, ApplyAll, GridSafe, Inv, Serve, Accepted;
    if requests == [] {
      InitGrid(p);
    } else {
      RunGrid(p, requests[..|requests| - 1]);
      ServeGrid(p, ServeAll(p, requests[..|requests| - 1]), requests[|requests| - 1]);
    }
  }

  // ---------- a run that fills a zone ----------

  /** Zone 0 has been opened with ZRWA and written up to `wp`. */
  ghost predicate OpenAt(p: Params, requests: seq<Request>, wp: nat)
    requires Consistent(p)
  {
    AllAccepted(p, requests) && p.nrZones > 0 && ServeAll(p, requests).zones[0] == Zone(OpenedExpl, wp, true)
  }

  /** The last write of the run. */
  function LastWrite(p: Params, nr: nat, lba: nat): Request {
    ForLba(Write(lba, nr, false, true), lba)
  }

  lemma FillsOnce(p: Params, requests: seq<Request>, wp: nat, nr: nat, lba: nat)
    requires Consistent(p) && OpenAt(p, requests, wp) && 0 < nr && wp <= lba && lba + nr <= p.zoneLbas && Aligned(p, nr)
    requires lba + nr - 1 <= Pred64(wp + 2 * p.lbasPerZrwa)
    requires lba + nr - 1 >= wp + p.lbasPerZrwa ==> p.lbasPerFg > 0
    requires wp + ImplicitFlush(p, 0, wp, lba + nr - 1) == p.zoneLbas
    ensures AllAccepted(p, requests + [LastWrite(p, nr, lba)])
    ensures ServeAll(p, requests + [LastWrite(p, nr, lba)]).fills > 0
  {
    hide ServeAll, AllAccepted, Inv, Aligned, InOneZone, ImplicitFlush, Pred64;
    StaysInZone(p, 0, lba, nr);
    DigitsUnique(0, lba, p.zoneLbas);
    ServeLast(p, requests, LastWrite(p, nr, lba));
  }

  lemma FlushGranule(p: Params, z: Zone, c: Counters)
    requires Consistent(p) && z.state == OpenedExpl && z.zrwav && 0 < p.lbasPerFg <= p.lbasPerZrwa
    requires z.wp + p.lbasPerFg < p.zoneLbas
    ensures FlushZrwa(p, 0, z, c, z.wp + p.lbasPerFg - 1).zone == z.(wp := z.wp + p.lbasPerFg)
  {
    assert p.lbasPerFg % p.lbasPerFg == 0;
  }

  /** An explicit flush of one granule. */
  lemma FlushOne(p: Params, requests: seq<Request>, wp: nat)
    requires Consistent(p) && OpenAt(p, requests, wp) && 0 < p.lbasPerFg <= p.lbasPerZrwa && wp + p.lbasPerFg < p.zoneLbas
    ensures var lba := wp + p.lbasPerFg - 1;
      OpenAt(p, requests + [ForLba(Flush(lba), lba)], wp + p.lbasPerFg)
  {
    hide ServeAll, AllAccepted, ZoneOk, TilesOk, Counted, WithinLimits, FlushZrwa;
    var lba := wp + p.lbasPerFg - 1;
    var m := ServeAll(p, requests);
    FlushGranule(p, m.zones[0], m.counters);
    DigitsUnique(0, lba, p.zoneLbas);
    ServeLast(p, requests, ForLba(Flush(lba), lba));
  }

  /** A write behind the ZRWA, which flushes one granule. */
  lemma WriteOne(p: Params, requests: seq<Request>, wp: nat, nr: nat)
    requires Consistent(p) && OpenAt(p, requests, wp) && 0 < nr <= 2 * p.lbasPerZrwa && Aligned(p, nr)
    requires p.lbasPerZrwa < p.lbasPerFg && nr <= p.lbasPerFg && wp + p.lbasPerFg < p.zoneLbas
    ensures OpenAt(p, requests + [BehindZrwa(p, nr, wp)], wp + p.lbasPerFg)
  {
    hide ServeAll, AllAccepted, Aligned, ZoneEffect, ZoneOk, TilesOk, Counted, WithinLimits;
    var m := ServeAll(p, requests);
    OneGranule(p, m.zones[0], m.counters, nr);
    ServeLast(p, requests, BehindZrwa(p, nr, wp));
  }

  /** Whether granules are flushed explicitly, or by writes of `nr` LBAs. */
  ghost predicate CanStep(p: Params, nr: nat)
    requires Consistent(p)
  {
    p.lbasPerFg > 0 && (p.lbasPerFg <= p.lbasPerZrwa || (0 < nr <= Min(2 * p.lbasPerZrwa, p.lbasPerFg) && Aligned(p, nr)))
  }

  lemma {:induction false} ReachGranule(p: Params, nr: nat, k: nat) returns (requests: seq<Request>)
    requires Consistent(p) && CanOpenZrwa(p) && CanStep(p, nr) && k * p.lbasPerFg < p.zoneLbas
    ensures OpenAt(p, requests, k * p.lbasPerFg)
  {
    hide OpenAt, Aligned, CanOpenZrwa;
    if k == 0 {
      requests := OpenZrwa();
      BeginOpen(p);
    } else {
      Distribute(k - 1, 1, p.lbasPerFg);
      requests := ReachGranule(p, nr, k - 1);
      var wp := (k - 1) * p.lbasPerFg;
      if p.lbasPerFg <= p.lbasPerZrwa {
        FlushOne(p, requests, wp);
        requests := requests + [ForLba(Flush(wp + p.lbasPerFg - 1), wp + p.lbasPerFg - 1)];
      } else {
        WriteOne(p, requests, wp, nr);
        requests := requests + [BehindZrwa(p, nr, wp)];
      }
    }
  }

  lemma BeginOpen(p: Params)
    requires Consistent(p) && CanOpenZrwa(p)
    ensures OpenAt(p, OpenZrwa(), 0)
  {
    hide ServeAll, AllAccepted;
    OpenedWithZrwa(p);
  }

  /** Some run of accepted requests fills a zone that holds a ZRWA. */
  ghost predicate SomeRunFills(p: Params)
    requires Consistent(p)
  {
    exists requests :: AllAccepted(p, requests) && ServeAll(p, requests).fills > 0
  }

  /** The last write ends at the end of the zone and within the ZRWA. */
  lemma EndFills(p: Params, requests: seq<Request>, wp: nat, nr: nat)
    requires Consistent(p) && OpenAt(p, requests, wp) && Aligned(p, nr) && 0 < nr <= p.zoneLbas - wp <= p.lbasPerZrwa
    ensures SomeRunFills(p)
  {
    hide OpenAt, Aligned, ServeAll, AllAccepted;
    FillsOnce(p, requests, wp, nr, p.zoneLbas - nr);
  }

  /** Without a ZRWA one write of the whole zone is flushed at once. */
  lemma WholeZoneFills(p: Params, nr: nat)
    requires Consistent(p) && CanOpenZrwa(p) && Aligned(p, nr) && 0 < nr <= p.zoneLbas
    requires p.lbasPerZrwa == 0 < p.lbasPerFg && Mod(p.zoneLbas, p.lbasPerFg) == 0
    ensures SomeRunFills(p)
  {
    hide OpenAt, Aligned, ServeAll, AllAccepted, CanOpenZrwa;
    BeginOpen(p);
    var q := Div(p.zoneLbas, p.lbasPerFg);
    assert p.zoneLbas == q * p.lbasPerFg;
    RoundedUp(p.zoneLbas, p.lbasPerFg);
    SameGranules(DivRoundUp(p.zoneLbas, p.lbasPerFg), q, p.lbasPerFg);
    FillsOnce(p, OpenZrwa(), 0, nr, p.zoneLbas - nr);
  }

  lemma SameGranules(a: nat, b: nat, g: nat)
    requires g > 0 && b * g <= a * g < b * g + g
    ensures a * g == b * g
  {
    DigitsUnique(b, a * g - b * g, g);
    DigitsUnique(a, 0, g);
  }

  /** The last granule of a zone of whole granules is flushed by a write behind the ZRWA. */
  lemma LastGranuleFills(p: Params, nr: nat)
    requires Consistent(p) && CanOpenZrwa(p) && Aligned(p, nr) && 0 < nr <= Min(2 * p.lbasPerZrwa, p.lbasPerFg)
    requires p.lbasPerZrwa < p.lbasPerFg && Mod(p.zoneLbas, p.lbasPerFg) == 0
    ensures SomeRunFills(p)
  {
    hide OpenAt, Aligned, ServeAll, AllAccepted, CanOpenZrwa, Mod, Div;
    var g, zrwa := p.lbasPerFg, p.lbasPerZrwa;
    var q := WholeCount(p.zoneLbas, g);
    Distribute(q - 1, 1, g);
    var wp := (q - 1) * g;
    var requests := ReachGranule(p, nr, q - 1);
    RoundedUp(Max(zrwa + 1, nr) - zrwa, g);
    FillsOnce(p, requests, wp, nr, wp + Max(zrwa + 1, nr) - nr);
  }

  lemma WholeCount(size: nat, g: nat) returns (q: nat)
    requires g > 0 && size > 0 && Mod(size, g) == 0
    ensures q > 0 && size == q * g
  {
    q := Div(size, g);
    assert size == q * g;
  }

  /** An incomplete last granule that fits into the ZRWA. */
  lemma RemainderFills(p: Params, nr: nat)
    requires Consistent(p) && CanOpenZrwa(p) && Aligned(p, nr) && p.lbasPerZrwa < p.lbasPerFg
    requires 0 < nr <= Mod(p.zoneLbas, p.lbasPerFg) <= p.lbasPerZrwa
    ensures SomeRunFills(p)
  {
    hide OpenAt, Aligned, ServeAll, AllAccepted, CanOpenZrwa;
    var q := Div(p.zoneLbas, p.lbasPerFg);
    assert p.zoneLbas == q * p.lbasPerFg + Mod(p.zoneLbas, p.lbasPerFg);
    var requests := ReachGranule(p, nr, q);
    EndFills(p, requests, q * p.lbasPerFg, nr);
  }

  /** Explicit flushes, until what is left fits into the ZRWA. */
  lemma FlushesFill(p: Params, nr: nat)
    requires Consistent(p) && CanOpenZrwa(p) && Aligned(p, nr) && 0 < p.lbasPerFg <= p.lbasPerZrwa < p.zoneLbas
    requires 0 < nr <= p.zoneLbas - DivRoundUp(p.zoneLbas - p.lbasPerZrwa, p.lbasPerFg) * p.lbasPerFg
    ensures SomeRunFills(p)
  {
    hide OpenAt, Aligned, ServeAll, AllAccepted, CanOpenZrwa;
    var k := DivRoundUp(p.zoneLbas - p.lbasPerZrwa, p.lbasPerFg);
    RoundedUp(p.zoneLbas - p.lbasPerZrwa, p.lbasPerFg);
    var requests := ReachGranule(p, nr, k);
    EndFills(p, requests, k * p.lbasPerFg, nr);
  }

  lemma CanFillFills(p: Params)
    requires Consistent(p) && CanOpenZrwa(p) && CanFill(p)
    ensures SomeRunFills(p)
  {
    hide Aligned, CanOpenZrwa, SomeRunFills, Mod, DivRoundUp, OpenAt;
    var nr: nat :| 0 < nr <= FillRoom(p) && Aligned(p, nr);
    var size, zrwa, g := p.zoneLbas, p.lbasPerZrwa, p.lbasPerFg;
    if size <= zrwa && (g == 0 || g <= zrwa) {
      BeginOpen(p);
      EndFills(p, OpenZrwa(), 0, nr);
    } else if zrwa == 0 {
      WholeZoneFills(p, nr);
    } else if g <= zrwa {
      FlushesFill(p, nr);
    } else if Mod(size, g) == 0 {
      LastGranuleFills(p, nr);
    } else {
      RemainderFills(p, nr);
    }
  }

  /** Some run fills a zone that holds a ZRWA, and so loses its resource, if and only if the totals let a zone be opened
      with ZRWA and the write unit allows a write that fits into the room before the end of a zone. */
  lemma FillsExact(p: Params)
    requires Consistent(p)
    ensures SomeRunFills(p) <==> CanOpenZrwa(p) && CanFill(p)
  {
    hide ServeAll, AllAccepted, CanOpenZrwa, CanFill;
    if CanOpenZrwa(p) && CanFill(p) {
      CanFillFills(p);
    }
    if requests :| AllAccepted(p, requests) && ServeAll(p, requests).fills > 0 {
      RunGrid(p, requests);
    }
  }
}
