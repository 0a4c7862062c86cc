/** All zones together: counters over whole command sequences, and what the writes of a zone add up to. */
module ZnsRuns {
  import opened Arith
  import opened ZnsModel

  // ---------- counting zones ----------

  function CountZones(zones: seq<Zone>, f: Zone -> bool): nat {
    if zones == [] then 0 else CountZones(zones[..|zones| - 1], f) + (if f(zones[|zones| - 1]) then 1 else 0)
  }

  lemma {:induction false} CountChange(zones: seq<Zone>, f: Zone -> bool, i: nat, z: Zone)
    requires i < |zones|
    ensures CountZones(zones[i := z], f) == CountZones(zones, f) + One(f(z)) - One(f(zones[i]))
  {
    var t := zones[i := z];
    if i == |zones| - 1 {
      assert t[..i] == zones[..i];
    } else {
      assert t[..|zones| - 1] == zones[..|zones| - 1][i := z];
      CountChange(zones[..|zones| - 1], f, i, z);
    }
  }

  lemma {:induction false} CountNone(zones: seq<Zone>, f: Zone -> bool)
    requires forall i :: 0 <= i < |zones| ==> !f(zones[i])
    ensures CountZones(zones, f) == 0
  {
    if zones != [] {
      CountNone(zones[..|zones| - 1], f);
    }
  }

  lemma {:induction false} CountOne(zones: seq<Zone>, f: Zone -> bool, i: nat)
    requires i < |zones| && f(zones[i])
    ensures CountZones(zones, f) > 0
  {
    if i < |zones| - 1 {
      CountOne(zones[..|zones| - 1], f, i);
    }
  }

  // ---------- tiles ----------

  /** One successful write or append: where it went and how long it was. */
  datatype Tile = Tile(start: nat, len: nat)

  /** The tiles follow each other from `from` to `to` without a gap or an overlap. */
  predicate Tiling(tiles: seq<Tile>, from: nat, to: nat) {
    if tiles == [] then from == to
    else
      var last := tiles[|tiles| - 1];
      last.len > 0 && last.start + last.len == to && Tiling(tiles[..|tiles| - 1], from, last.start)
  }

  /** The writes to a zone since its last reset. */
  function NewTiles(cmd: Command, z: Zone, e: Effect, tiles: seq<Tile>): seq<Tile> {
    if e.status != Success then tiles
    else if cmd.Reset? then []
    else if cmd.Write? && !z.zrwav then tiles + [Tile(if cmd.isAppend then z.wp else cmd.lba, cmd.nr)]
    else tiles
  }

  /** Without ZRWA the writes tile everything up to the write pointer. */
  predicate TilesOk(p: Params, zid: nat, z: Zone, tiles: seq<Tile>) {
    z.zrwav || Tiling(tiles, Start(p, zid), z.wp)
  }

  lemma {:induction false} TilesFit(tiles: seq<Tile>, from: nat, to: nat)
    requires Tiling(tiles, from, to)
    ensures from <= to
    ensures from == to ==> tiles == []
  {
    if tiles != [] {
      TilesFit(tiles[..|tiles| - 1], from, tiles[|tiles| - 1].start);
    }
  }

  /** Any two tiles are disjoint and in order. */
  lemma {:induction false} TilesDisjoint(tiles: seq<Tile>, from: nat, to: nat, i: nat, j: nat)
    requires Tiling(tiles, from, to) && i < j < |tiles|
    ensures from <= tiles[i].start && tiles[i].start + tiles[i].len <= tiles[j].start
    ensures tiles[j].start + tiles[j].len <= to
  {
    var init, last := tiles[..|tiles| - 1], tiles[|tiles| - 1];
    if j < |tiles| - 1 {
      TilesDisjoint(init, from, last.start, i, j);
    } else {
      TileInside(init, from, last.start, i);
    }
  }

  lemma {:induction false} TileInside(tiles: seq<Tile>, from: nat, to: nat, i: nat)
    requires Tiling(tiles, from, to) && i < |tiles|
    ensures from <= tiles[i].start && tiles[i].start + tiles[i].len <= to
  {
    var init, last := tiles[..|tiles| - 1], tiles[|tiles| - 1];
    TilesFit(init, from, last.start);
    if i < |tiles| - 1 {
      TileInside(init, from, last.start, i);
    }
  }

  lemma EffectTiles(p: Params, cmd: Command, zid: nat, z: Zone, c: Counters, tiles: seq<Tile>)
    requires Consistent(p) && WellFormed(cmd) && ZoneOk(p, zid, z) && TilesOk(p, zid, z, tiles)
    ensures var e := ZoneEffect(p, cmd, zid, z, c);
      TilesOk(p, zid, e.zone, NewTiles(cmd, z, e, tiles))
  {
    var e := ZoneEffect(p, cmd, zid, z, c);
    if cmd.Write? && !z.zrwav && e.status == Success {
      var n := tiles + [Tile(z.wp, cmd.nr)];
      assert n[..|n| - 1] == tiles;
    }
    hide InOneZone, Aligned, Tiling;
  }

  // ---------- the machine ----------

  /** All zones and counters. The last three are observations: the tiles of each zone, how many writes have
      filled a zone that holds a ZRWA, and whether a command has divided by zero. */
  datatype Machine = Machine(zones: seq<Zone>, counters: Counters, tiles: seq<seq<Tile>>, fills: nat, faulted: bool)

  /** A zone filled by a write keeps its ZRWA resource. */
  ghost predicate Counted(zones: seq<Zone>, c: Counters, fills: nat) {
    && c.active == CountZones(zones, IsActive)
    && c.open == CountZones(zones, IsOpen)
    && c.zrwa == CountZones(zones, HoldsZrwa) + fills
  }

  ghost predicate Inv(p: Params, m: Machine) {
    && |m.zones| == |m.tiles| == p.nrZones
    && (forall i: nat :: i < |m.zones| ==> ZoneOk(p, i, m.zones[i]) && TilesOk(p, i, m.zones[i], m.tiles[i]))
    && WithinLimits(p, m.counters) && Counted(m.zones, m.counters, m.fills)
  }

  function Init(p: Params): Machine {
    Machine(seq(p.nrZones, i requires 0 <= i < p.nrZones => Zone(Empty, Start(p, i), false)), Counters(0, 0, 0),
            seq(p.nrZones, _ => []), 0, false)
  }

  lemma InitInv(p: Params)
    ensures Inv(p, Init(p))
  {
    var m := Init(p);
    CountNone(m.zones, IsActive);
    CountNone(m.zones, IsOpen);
    CountNone(m.zones, HoldsZrwa);
  }

  /** One command on one zone. */
  function Apply(p: Params, m: Machine, cmd: Command, zid: nat): Machine
    requires Consistent(p) && WellFormed(cmd) && zid < |m.zones| == |m.tiles|
  {
    var z := m.zones[zid];
    var e := ZoneEffect(p, cmd, zid, z, m.counters);
    Machine(m.zones[zid := e.zone], e.counters, m.tiles[zid := NewTiles(cmd, z, e, m.tiles[zid])],
            if FillsZrwa(p, cmd, zid, z, m.counters) then m.fills + 1 else m.fills, m.faulted || e.status == DivideError)
  }

  lemma ApplyInv(p: Params, m: Machine, cmd: Command, zid: nat)
    requires Consistent(p) && WellFormed(cmd) && Inv(p, m) && zid < |m.zones|
    ensures Inv(p, Apply(p, m, cmd, zid))
  {
    var z := m.zones[zid];
    var e := ZoneEffect(p, cmd, zid, z, m.counters);
    CommandSound(p, cmd, zid, z, m.counters);
    EffectTiles(p, cmd, zid, z, m.counters, m.tiles[zid]);
    CountChange(m.zones, IsActive, zid, e.zone);
    CountChange(m.zones, IsOpen, zid, e.zone);
    CountChange(m.zones, HoldsZrwa, zid, e.zone);
    hide ZoneEffect, ZoneOk, TilesOk, CountZones, NewTiles, FillsZrwa;
  }

  /** The select-all loop over the first `n` zones; a flush names the first LBA of each zone. */
  function ApplyAll(p: Params, m: Machine, cmd: Command, n: nat): (r: Machine)
    requires Consistent(p) && !cmd.Write? && n <= p.nrZones && Inv(p, m)
    ensures Inv(p, r)
  {
    hide ZoneEffect, ZoneOk, TilesOk, CountZones, NewTiles, Counted;
    if n == 0 then m
    else
      var prev, c := ApplyAll(p, m, cmd, n - 1), ForZone(p, cmd, n - 1);
      ApplyInv(p, prev, c, n - 1);
      Apply(p, prev, c, n - 1)
  }

  function ForZone(p: Params, cmd: Command, zid: nat): Command {
    if cmd.Flush? then Flush(Start(p, zid)) else cmd
  }

  /** A request from the host: a command for the zone of an LBA or for all zones. */
  datatype Request = ForLba(cmd: Command, lba: nat) | ForAll(cmd: Command)

  predicate Accepted(p: Params, r: Request)
    requires p.zoneLbas > 0
  {
    match r
    case ForLba(cmd, lba) =>
      WellFormed(cmd) && ZoneOf(p, lba) < p.nrZones && (cmd.Write? ==> cmd.lba == lba) && (cmd.Flush? ==> cmd.flushLba == lba)
    case ForAll(cmd) => !cmd.Write?
  }

  predicate AllAccepted(p: Params, requests: seq<Request>)
    requires p.zoneLbas > 0
  {
    forall i :: 0 <= i < |requests| ==> Accepted(p, requests[i])
  }

  function Serve(p: Params, m: Machine, r: Request): (t: Machine)
    requires Consistent(p) && Accepted(p, r) && Inv(p, m)
    ensures Inv(p, t)
  {
    hide ZoneEffect, ZoneOk, TilesOk, CountZones, NewTiles, FillsZrwa, ApplyAll;
    match r
    case ForLba(cmd, lba) =>
      ApplyInv(p, m, cmd, ZoneOf(p, lba));
      Apply(p, m, cmd, ZoneOf(p, lba))
    case ForAll(cmd) => ApplyAll(p, m, cmd, p.nrZones)
  }

  function ServeAll(p: Params, requests: seq<Request>): (t: Machine)
    requires Consistent(p) && AllAccepted(p, requests)
    ensures Inv(p, t)
  {
    if requests == [] then
      InitInv(p);
      Init(p)
    else Serve(p, ServeAll(p, requests[..|requests| - 1]), requests[|requests| - 1])
  }

  lemma ServeLast(p: Params, requests: seq<Request>, r: Request)
    requires Consistent(p) && AllAccepted(p, requests) && Accepted(p, r)
    ensures AllAccepted(p, requests + [r])
    ensures ServeAll(p, requests + [r]) == Serve(p, ServeAll(p, requests), r)
  {
    assert (requests + [r])[..|requests|] == requests;
    hide Serve, Accepted;
  }

  /** After any sequence of commands the counters are the numbers of open and of active zones, an empty zone
      has no ZRWA, an open or closed zone is not at its end, and the writes to a zone without ZRWA tile it up
      to the write pointer. The ZRWA counter is the number of zones that hold one if and only if no write has
      filled such a zone. */
  lemma RunKeepsZones(p: Params, requests: seq<Request>, zid: nat)
    requires Consistent(p) && AllAccepted(p, requests) && zid < p.nrZones
    ensures var m := ServeAll(p, requests);
      && |m.zones| == |m.tiles| == p.nrZones
      && m.counters.active == CountZones(m.zones, IsActive) <= p.maxActive
      && m.counters.open == CountZones(m.zones, IsOpen) <= p.maxOpen
      && m.counters.zrwa == CountZones(m.zones, HoldsZrwa) + m.fills <= p.maxZrwa
      && (m.counters.zrwa == CountZones(m.zones, HoldsZrwa) <==> m.fills == 0)
      && var z := m.zones[zid];
      && Start(p, zid) <= z.wp
      && (z.state.Empty? ==> !z.zrwav && z.wp == Start(p, zid))
      && (IsActive(z) ==> z.wp != End(p, zid))
      && (!z.zrwav ==> z.wp <= End(p, zid) && Tiling(m.tiles[zid], Start(p, zid), z.wp))
  {
    var m := ServeAll(p, requests);
    assert ZoneOk(p, zid, m.zones[zid]);
    hide ServeAll, CountZones, Tiling;
  }

  // ---------- zones with ZRWA ----------

  /** Opens zone 0 with ZRWA. */
  function OpenZrwa(): seq<Request> {
    [ForLba(Open(true), 0)]
  }

  lemma OpenedWithZrwa(p: Params)
    requires Consistent(p) && CanOpenZrwa(p)
    ensures AllAccepted(p, OpenZrwa())
    ensures var m := ServeAll(p, OpenZrwa()); m.zones[0] == Zone(OpenedExpl, 0, true) && m.fills == 0
  {
    assert OpenZrwa() == [] + [ForLba(Open(true), 0)];
    ServeLast(p, [], ForLba(Open(true), 0));
  }

  /** Some writes do fill a zone that holds a ZRWA: when the ZRWA is as large as the zone one write is enough,
      and its resource stays taken although no zone holds it. */
  lemma FilledZoneKeepsZrwa(p: Params)
    requires Consistent(p) && CanOpenZrwa(p) && p.zoneLbas <= p.lbasPerZrwa && Aligned(p, p.zoneLbas)
    ensures var requests := OpenZrwa() + [ForLba(Write(0, p.zoneLbas, false, true), 0)];
      AllAccepted(p, requests) && ServeAll(p, requests).fills == 1
  {
    hide ServeAll, AllAccepted, Inv, Aligned, InOneZone;
    OpenedWithZrwa(p);
    StaysInZone(p, 0, 0, p.zoneLbas);
    ServeLast(p, OpenZrwa(), ForLba(Write(0, p.zoneLbas, false, true), 0));
  }

  /** What the ZRWA parameters rule out in the states a run can reach. */
  ghost predicate ZrwaSafe(p: Params, m: Machine)
    requires Consistent(p)
  {
    && |m.zones| == p.nrZones
    && (!CanOpenZrwa(p) ==> forall i: nat :: i < |m.zones| ==> !m.zones[i].zrwav)
    && (p.lbasPerFg > 0 || !CanOpenZrwa(p) ==> !m.faulted)
    && (GranulesFit(p) ==> forall i: nat :: i < |m.zones| ==>
          Start(p, i) <= m.zones[i].wp && InGranules(p, i, m.zones[i]))
  }

  lemma ApplySafe(p: Params, m: Machine, cmd: Command, zid: nat)
    requires Consistent(p) && WellFormed(cmd) && Addressed(p, cmd, zid) && Inv(p, m) && zid < |m.zones|
    requires ZrwaSafe(p, m)
    ensures ZrwaSafe(p, Apply(p, m, cmd, zid))
  {
    var z := m.zones[zid];
    if !CanOpenZrwa(p) {
      ZrwaNeedsTotals(p, cmd, zid, z, m.counters);
    }
    if GranulesFit(p) {
      KeepsGranules(p, cmd, zid, z, m.counters);
    }
    FaultNeedsZrwa(p, cmd, zid, z, m.counters);
    hide ZoneEffect, ZoneOk, TilesOk, NewTiles, FillsZrwa, GranulesFit, CanOpenZrwa, CountZones, InGranules;
  }

  lemma ApplyAllSafe(p: Params, m: Machine, cmd: Command, n: nat)
    requires Consistent(p) && !cmd.Write? && n <= p.nrZones && Inv(p, m) && ZrwaSafe(p, m)
    ensures ZrwaSafe(p, ApplyAll(p, m, cmd, n))
  {
    hide Apply, ZrwaSafe, TilesOk, ZoneOk, Counted, WithinLimits;
    if n > 0 {
      ApplyAllSafe(p, m, cmd, n - 1);
      ApplySafe(p, ApplyAll(p, m, cmd, n - 1), ForZone(p, cmd, n - 1), n - 1);
    }
  }

  lemma ServeSafe(p: Params, m: Machine, r: Request)
    requires Consistent(p) && Accepted(p, r) && Inv(p, m) && ZrwaSafe(p, m)
    ensures ZrwaSafe(p, Serve(p, m, r))
  {
    hide Apply, ApplyAll, ZrwaSafe;
    match r
    case ForLba(cmd, lba) => ApplySafe(p, m, cmd, ZoneOf(p, lba));
    case ForAll(cmd) => ApplyAllSafe(p, m, cmd, p.nrZones);
  }

  lemma InitSafe(p: Params)
    requires Consistent(p)
    ensures ZrwaSafe(p, Init(p))
  {
    hide InGranules, GranulesFit, CanOpenZrwa;
    forall i: nat | i < p.nrZones
      ensures InGranules(p, i, Init(p).zones[i])
    {
      StartInGranules(p, i, Init(p).zones[i]);
    }
  }

  lemma {:induction false} RunSafe(p: Params, requests: seq<Request>)
    requires Consistent(p) && AllAccepted(p, requests)
    ensures ZrwaSafe(p, ServeAll(p, requests))
  {
    hide Apply, ApplyAll, ZrwaSafe, Inv, Serve, Accepted;
    if requests == [] {
      InitSafe(p);
    } else {
      RunSafe(p, requests[..|requests| - 1]);
      ServeSafe(p, ServeAll(p, requests[..|requests| - 1]), requests[|requests| - 1]);
    }
  }

  // ---------- division by zero ----------

  /** No command of any run divides by zero if and only if the device has a flush granule or the totals let no
      zone be opened with ZRWA. */
  lemma DivideErrorExact(p: Params)
    requires Consistent(p)
    ensures (forall requests: seq<Request> :: AllAccepted(p, requests) ==> !ServeAll(p, requests).faulted)
      <==> p.lbasPerFg > 0 || !CanOpenZrwa(p)
  {
    if p.lbasPerFg > 0 || !CanOpenZrwa(p) {
      forall requests: seq<Request> | AllAccepted(p, requests)
        ensures !ServeAll(p, requests).faulted
      {
        RunSafe(p, requests);
      }
    } else {
      FlushDivides(p);
    }
    hide ServeAll, AllAccepted;
  }

  /** A zone opened with ZRWA on a device without a flush granule: flushing LBA 0 divides by zero. */
  lemma FlushDivides(p: Params)
    requires Consistent(p) && p.lbasPerFg == 0 && CanOpenZrwa(p)
    ensures var requests := OpenZrwa() + [ForLba(Flush(0), 0)];
      AllAccepted(p, requests) && ServeAll(p, requests).faulted
  {
    OpenedWithZrwa(p);
    ServeLast(p, OpenZrwa(), ForLba(Flush(0), 0));
    hide ServeAll, AllAccepted;
  }

  /** So does writing LBA 0 when there is no ZRWA to hold it, as on both configured devices. */
  lemma WriteDivides(p: Params)
    requires Consistent(p) && p.lbasPerFg == 0 && p.lbasPerZrwa == 0 && CanOpenZrwa(p) && LBA_SIZE % p.writeUnit == 0
    ensures var requests := OpenZrwa() + [ForLba(Write(0, 1, false, true), 0)];
      AllAccepted(p, requests) && ServeAll(p, requests).faulted
  {
    OpenedWithZrwa(p);
    ServeLast(p, OpenZrwa(), ForLba(Write(0, 1, false, true), 0));
    hide ServeAll, AllAccepted;
  }

  // ---------- the write boundary error ----------

  /** No run has moved a write pointer past the end of its zone, which is the write boundary error of
      `__increase_write_ptr`. */
  ghost predicate NoBoundaryError(p: Params)
    requires Consistent(p)
  {
    forall requests: seq<Request>, zid: nat :: AllAccepted(p, requests) && zid < p.nrZones ==>
      ServeAll(p, requests).zones[zid].wp <= End(p, zid)
  }

  lemma GranulesPreventOverrun(p: Params)
    requires Consistent(p) && (GranulesFit(p) || !CanOpenZrwa(p))
    ensures NoBoundaryError(p)
  {
    forall requests: seq<Request>, zid: nat | AllAccepted(p, requests) && zid < p.nrZones
      ensures ServeAll(p, requests).zones[zid].wp <= End(p, zid)
    {
      RunSafe(p, requests);
      RunKeepsZones(p, requests, zid);
    }
    hide ServeAll, AllAccepted, GranulesFit, CanOpenZrwa;
  }

  /** No run moves a write pointer past the end of its zone if and only if the last granule fits or the totals
      let no zone be opened with ZRWA. */
  lemma BoundaryErrorExact(p: Params)
    requires Consistent(p)
    ensures NoBoundaryError(p) <==> GranulesFit(p) || !CanOpenZrwa(p)
  {
    hide ServeAll, AllAccepted, Aligned;
    if GranulesFit(p) || !CanOpenZrwa(p) {
      GranulesPreventOverrun(p);
    } else {
      var nr: nat :| Overshoots(p, nr);
      if p.lbasPerZrwa == 0 {
        WholeZoneOverruns(p, nr);
      } else {
        GranulesOverrun(p, nr);
      }
    }
  }

  /** A write of `nr` LBAs that ends behind the ZRWA of a zone written up to `wp`. */
  function BehindZrwa(p: Params, nr: nat, wp: nat): Request {
    var lba := wp + Max(p.lbasPerZrwa + 1, nr) - nr;
    ForLba(Write(lba, nr, false, true), lba)
  }

  /** Zone 0 is opened with ZRWA and `k` writes each make it flush one granule. */
  function GranuleRun(p: Params, nr: nat, k: nat): seq<Request> {
    if k == 0 then OpenZrwa() else GranuleRun(p, nr, k - 1) + [BehindZrwa(p, nr, (k - 1) * p.lbasPerFg)]
  }

  lemma OneGranuleUp(x: nat, g: nat)
    requires 0 < x <= g
    ensures DivRoundUp(x, g) * g == g
  {
    DigitsUnique(1, x - 1, g);
  }

  lemma OneGranule(p: Params, z: Zone, c: Counters, nr: nat)
    requires Consistent(p) && 0 < nr <= 2 * p.lbasPerZrwa && Aligned(p, nr) && p.lbasPerZrwa < p.lbasPerFg
    requires z.state == OpenedExpl && z.zrwav && z.wp + Max(p.lbasPerZrwa + 1, nr) <= p.zoneLbas
    requires z.wp + p.lbasPerFg != p.zoneLbas
    ensures Accepted(p, BehindZrwa(p, nr, z.wp)) || p.nrZones == 0
    ensures ZoneOf(p, BehindZrwa(p, nr, z.wp).lba) == 0
    ensures ZoneEffect(p, BehindZrwa(p, nr, z.wp).cmd, 0, z, c).zone == z.(wp := z.wp + p.lbasPerFg)
  {
    var lba := BehindZrwa(p, nr, z.wp).lba;
    StaysInZone(p, 0, lba, nr);
    OneGranuleUp(Max(p.lbasPerZrwa + 1, nr) - p.lbasPerZrwa, p.lbasPerFg);
    DigitsUnique(0, lba, p.zoneLbas);
    hide InOneZone, Aligned, DivRoundUp;
  }

  lemma LastGranule(size: nat, g: nat, k: nat)
    requires g > 0 && 0 < Mod(size, g) && k <= Div(size, g)
    ensures k * g + Mod(size, g) <= size && Mod(size, g) < g && k * g + g != size && (k + 1) * g == k * g + g
  {
    MulMono(k, Div(size, g), g);
    Distribute(k, 1, g);
    assert size == Div(size, g) * g + Mod(size, g);
    if (k + 1) * g == size {
      DigitsUnique(k + 1, 0, g);
    }
  }

  lemma {:induction false} GranuleRunWp(p: Params, nr: nat, k: nat)
    requires Consistent(p) && CanOpenZrwa(p) && p.lbasPerFg > 0 && Overshoots(p, nr)
    requires 0 < p.lbasPerZrwa < Mod(p.zoneLbas, p.lbasPerFg)
    requires k <= Div(p.zoneLbas, p.lbasPerFg) + 1
    ensures AllAccepted(p, GranuleRun(p, nr, k))
    ensures ServeAll(p, GranuleRun(p, nr, k)).zones[0] == Zone(OpenedExpl, k * p.lbasPerFg, true)
  {
    hide ServeAll, AllAccepted, ZoneEffect, Aligned, ZoneOk, TilesOk, Counted, Mod, Div;
    OpenedWithZrwa(p);
    if k > 0 {
      var g := p.lbasPerFg;
      GranuleRunWp(p, nr, k - 1);
      LastGranule(p.zoneLbas, g, k - 1);
      var m := ServeAll(p, GranuleRun(p, nr, k - 1));
      OneGranule(p, m.zones[0], m.counters, nr);
      ServeLast(p, GranuleRun(p, nr, k - 1), BehindZrwa(p, nr, (k - 1) * g));
    }
  }

  /** The granules of zone 0 run past its end. */
  lemma GranulesOverrun(p: Params, nr: nat)
    requires Consistent(p) && CanOpenZrwa(p) && p.lbasPerFg > 0 && Overshoots(p, nr)
    requires 0 < p.lbasPerZrwa < Mod(p.zoneLbas, p.lbasPerFg)
    ensures var requests := GranuleRun(p, nr, Div(p.zoneLbas, p.lbasPerFg) + 1);
      AllAccepted(p, requests) && ServeAll(p, requests).zones[0].wp > End(p, 0)
  {
    hide ServeAll, AllAccepted, Aligned, GranuleRun, CanOpenZrwa, Inv;
    var k := Div(p.zoneLbas, p.lbasPerFg) + 1;
    GranuleRunWp(p, nr, k);
    Distribute(k - 1, 1, p.lbasPerFg);
    assert p.zoneLbas == (k - 1) * p.lbasPerFg + Mod(p.zoneLbas, p.lbasPerFg);
  }

  /** Without a ZRWA one write that ends at the last LBA flushes the whole zone, rounded up to granules. */
  lemma WholeZoneOverruns(p: Params, nr: nat)
    requires Consistent(p) && CanOpenZrwa(p) && p.lbasPerFg > 0 && Overshoots(p, nr)
    requires p.lbasPerZrwa == 0 < Mod(p.zoneLbas, p.lbasPerFg)
    ensures var lba := p.zoneLbas - nr;
      var requests := OpenZrwa() + [ForLba(Write(lba, nr, false, true), lba)];
      AllAccepted(p, requests) && ServeAll(p, requests).zones[0].wp > End(p, 0)
  {
    hide ServeAll, AllAccepted, InOneZone, Aligned, DivRoundUp;
    var lba, g := p.zoneLbas - nr, p.lbasPerFg;
    OpenedWithZrwa(p);
    StaysInZone(p, 0, lba, nr);
    DigitsUnique(0, lba, p.zoneLbas);
    ServeLast(p, OpenZrwa(), ForLba(Write(lba, nr, false, true), lba));
    var q := DivRoundUp(p.zoneLbas, g);
    if q * g == p.zoneLbas {
      DigitsUnique(q, 0, g);
    }
  }
}
