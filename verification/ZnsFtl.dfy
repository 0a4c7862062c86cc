/** The zone commands as zns_mgmt_send.c and zns_read_write.c run them: zone descriptors and resource
    counters updated in place. Every release finds its counter above zero. */
module ZnsFtl {
  import opened Arith
  import opened ZnsModel
  import opened ZnsRuns

  datatype Resource = ActiveZone | OpenRes | ZrwaRes

  function Added(c: Counters, r: Resource, k: int): Counters {
    match r
    case ActiveZone => c.(active := c.active + k)
    case OpenRes => c.(open := c.open + k)
    case ZrwaRes => c.(zrwa := c.zrwa + k)
  }

  function Acquired(c: Counters, r: Resource): int {
    match r
    case ActiveZone => c.active
    case OpenRes => c.open
    case ZrwaRes => c.zrwa
  }

  function Total(p: Params, r: Resource): nat {
    match r
    case ActiveZone => p.maxActive
    case OpenRes => p.maxOpen
    case ZrwaRes => p.maxZrwa
  }

  /** A zone that holds a resource keeps its counter above zero. */
  lemma Held(p: Params, m: Machine, zid: nat)
    requires Inv(p, m) && zid < |m.zones|
    ensures IsActive(m.zones[zid]) ==> m.counters.active > 0
    ensures IsOpen(m.zones[zid]) ==> m.counters.open > 0
    ensures HoldsZrwa(m.zones[zid]) ==> m.counters.zrwa > 0
    ensures ZoneOk(p, zid, m.zones[zid]) && WithinLimits(p, m.counters)
    ensures m.counters.active >= 0 && m.counters.open >= 0 && m.counters.zrwa >= 0
  {
    var z := m.zones[zid];
    if IsActive(z) {
      CountOne(m.zones, IsActive, zid);
    }
    if IsOpen(z) {
      CountOne(m.zones, IsOpen, zid);
    }
    if HoldsZrwa(z) {
      CountOne(m.zones, HoldsZrwa, zid);
    }
  }

  /** Serving the request takes machine `m` to `t`. */
  ghost predicate Served(p: Params, m: Machine, r: Request, t: Machine) {
    hide ZoneEffect, ZoneOk, TilesOk, Counted, CountZones, NewTiles;
    Consistent(p) && Inv(p, m) && Accepted(p, r) && t == Serve(p, m, r)
  }

  /** The status of a command, with the condition for it, and for an append without ZRWA the LBA that `ret` reports: the start of the tile
      it adds. */
  ghost predicate Reported(p: Params, m: Machine, cmd: Command, zid: nat, t: Machine, status: Status, ret: nat) {
    && Consistent(p) && WellFormed(cmd) && zid < |m.zones| == |t.tiles|
    && status == ZoneEffect(p, cmd, zid, m.zones[zid], m.counters).status
    && Reports(p, cmd, zid, m.zones[zid], m.counters, status)
    && (cmd.Write? && cmd.isAppend && status == Success && !m.zones[zid].zrwav ==>
          |t.tiles[zid]| > 0 && t.tiles[zid][|t.tiles[zid]| - 1] == Tile(ret, cmd.nr))
  }

  lemma StatusOf(p: Params, m: Machine, cmd: Command, zid: nat)
    requires Consistent(p) && Inv(p, m) && WellFormed(cmd) && zid < |m.zones|
    ensures Reports(p, cmd, zid, m.zones[zid], m.counters, ZoneEffect(p, cmd, zid, m.zones[zid], m.counters).status)
  {
    hide ZoneEffect, ZoneOk, TilesOk, Counted, WithinLimits, Reports;
    StatusExact(p, cmd, zid, m.zones[zid], m.counters, ZoneEffect(p, cmd, zid, m.zones[zid], m.counters).status);
  }

  lemma WriteServed(p: Params, m: Machine, cmd: Command, zid: nat, ret: nat)
    requires Consistent(p) && Inv(p, m) && cmd.Write? && cmd.nr > 0 && ZoneOf(p, cmd.lba) == zid < |m.zones|
    requires cmd.isAppend && !m.zones[zid].zrwav ==> ret == m.zones[zid].wp
    ensures var e, t := ZoneEffect(p, cmd, zid, m.zones[zid], m.counters), Apply(p, m, cmd, zid);
      Inv(p, t) && Served(p, m, ForLba(cmd, cmd.lba), t) && Reported(p, m, cmd, zid, t, e.status, ret)
  {
    hide ZoneEffect, ZoneOk, TilesOk, Counted, WithinLimits, Reports;
    ApplyInv(p, m, cmd, zid);
    StatusOf(p, m, cmd, zid);
  }

  class ZnsFtl {
    const p: Params
    const zones: array<Zone>
    var counters: Counters
    ghost var tiles: seq<seq<Tile>>
    ghost var fills: nat
    ghost var faulted: bool

    ghost function Mac(): Machine
      reads this, zones
    {
      Machine(zones[..], counters, tiles, fills, faulted)
    }

    ghost predicate Valid()
      reads this, zones
    {
      Consistent(p) && Inv(p, Mac())
    }

    /** `__init_descriptor` and `__init_resource`. */
    constructor (p: Params)
      requires Consistent(p)
      ensures Valid() && fresh(zones) && this.p == p && Mac() == Init(p)
    {
      this.p := p;
      zones := new Zone[p.nrZones](i requires 0 <= i => Zone(Empty, Start(p, i), false));
      counters := Counters(0, 0, 0);
      tiles, fills, faulted := Init(p).tiles, 0, false;
      new;
      assert zones[..] == Init(p).zones;
      InitInv(p);
    }

    /** `acquire_zone_resource`. */
    method Acquire(r: Resource) returns (ok: bool)
      modifies this`counters
      ensures ok == (Acquired(old(counters), r) < Total(p, r))
      ensures counters == if ok then Added(old(counters), r, 1) else old(counters)
    {
      ok := Acquired(counters, r) < Total(p, r);
      if ok {
        counters := Added(counters, r, 1);
      }
    }

    /** `release_zone_resource`, whose assertion is the precondition. */
    method Release(r: Resource)
      requires Acquired(counters, r) > 0
      modifies this`counters
      ensures counters == Added(old(counters), r, -1)
    {
      counters := Added(counters, r, -1);
    }

    /** `is_zone_resource_full`. */
    predicate IsFull(r: Resource)
      reads this
    {
      Acquired(counters, r) == Total(p, r)
    }

    /** `change_zone_state`. */
    method ChangeState(zid: nat, state: State)
      requires zid < zones.Length
      modifies zones
      ensures zones[..] == old(zones[..])[zid := old(zones[zid]).(state := state)]
    {
      zones[zid] := zones[zid].(state := state);
    }

    /** The zone and the counters are as the effect says, and nothing else has changed. */
    twostate predicate Became(zid: nat, e: Effect, status: Status)
      requires zid < zones.Length
      reads this, zones
    {
      && zones[..] == old(zones[..])[zid := e.zone] && counters == e.counters && status == e.status
      && tiles == old(tiles) && fills == old(fills) && faulted == old(faulted)
    }

    /** The observations of a command. */
    ghost method Observe(m: Machine)
      modifies this`tiles, this`fills, this`faulted
      ensures tiles == m.tiles && fills == m.fills && faulted == m.faulted
    {
      tiles, fills, faulted := m.tiles, m.fills, m.faulted;
    }

    /** `__zmgmt_send_close_zone`. */
    method SendClose(zid: nat) returns (status: Status)
      requires Valid() && zid < zones.Length
      modifies this`counters, zones
      ensures Became(zid, CloseZone(old(zones[zid]), old(counters)), status)
    {
      Held(p, Mac(), zid);
      status := Success;
      var state := zones[zid].state;
      if state.OpenedImpl? || state.OpenedExpl? {
        ChangeState(zid, Closed);
        Release(OpenRes);
      } else if !state.Closed? {
        status := InvalidTransition;
      }
    }

    /** `__zmgmt_send_finish_zone`. */
    method SendFinish(zid: nat) returns (status: Status)
      requires Valid() && zid < zones.Length
      modifies this`counters, zones
      ensures Became(zid, FinishZone(old(zones[zid]), old(counters)), status)
    {
      Held(p, Mac(), zid);
      status := Success;
      var state := zones[zid].state;
      var isZrwaZone := zones[zid].zrwav;
      if state.OpenedImpl? || state.OpenedExpl? {
        Release(OpenRes);
      }
      if state.OpenedImpl? || state.OpenedExpl? || state.Closed? {
        Release(ActiveZone);
        if isZrwaZone {
          Release(ZrwaRes);
        }
        ChangeState(zid, Full);
      } else if state.Empty? {
        ChangeState(zid, Full);
      } else if !state.Full? {
        status := InvalidTransition;
      }
    }

    /** `__zmgmt_send_open_zone`. */
    method SendOpen(zid: nat, withZrwa: bool) returns (status: Status)
      requires Valid() && zid < zones.Length
      modifies this`counters, zones
      ensures Became(zid, OpenZone(p, old(zones[zid]), old(counters), withZrwa), status)
    {
      Held(p, Mac(), zid);
      status := Success;
      var state := zones[zid].state;
      if state.Empty? {
        if IsFull(ActiveZone) {
          return NoActiveZone;
        }
        if IsFull(OpenRes) {
          return NoOpenZone;
        }
        if withZrwa {
          if IsFull(ZrwaRes) {
            return ZrwaUnavailable;
          }
          var got := Acquire(ZrwaRes);
          zones[zid] := zones[zid].(zrwav := true);
        }
        var got := Acquire(ActiveZone);
      }
      if state.Empty? || state.Closed? {
        var got := Acquire(OpenRes);
        if !got {
          return NoOpenZone;
        }
      }
      if state.Empty? || state.Closed? || state.OpenedImpl? {
        ChangeState(zid, OpenedExpl);
      } else if !state.OpenedExpl? {
        status := InvalidTransition;
      }
    }

    /** `__reset_zone`. */
    method ClearZone(zid: nat)
      requires zid < zones.Length
      modifies zones
      ensures zones[..] == old(zones[..])[zid := old(zones[zid]).(wp := Start(p, zid), zrwav := false)]
    {
      zones[zid] := zones[zid].(wp := zid * p.zoneLbas);
      zones[zid] := zones[zid].(zrwav := false);
    }

    /** `__zmgmt_send_reset_zone`. */
    method SendReset(zid: nat) returns (status: Status)
      requires Valid() && zid < zones.Length
      modifies this`counters, zones
      ensures Became(zid, ResetZone(p, zid, old(zones[zid]), old(counters)), status)
    {
      Held(p, Mac(), zid);
      status := Success;
      var state := zones[zid].state;
      var isZrwaZone := zones[zid].zrwav;
      if state.OpenedImpl? || state.OpenedExpl? {
        Release(OpenRes);
      }
      if state.OpenedImpl? || state.OpenedExpl? || state.Closed? {
        Release(ActiveZone);
        if isZrwaZone {
          Release(ZrwaRes);
        }
      }
      if state.ReadOnly? || state.Offline? {
        status := InvalidTransition;
      } else {
        ChangeState(zid, Empty);
        ClearZone(zid);
      }
    }

    /** `__zmgmt_send_offline_zone`. */
    method SendOffline(zid: nat) returns (status: Status)
      requires Valid() && zid < zones.Length
      modifies zones
      ensures Became(zid, OfflineZone(old(zones[zid]), old(counters)), status)
    {
      status := Success;
      if zones[zid].state.ReadOnly? {
        ChangeState(zid, Offline);
      } else if !zones[zid].state.Offline? {
        status := InvalidTransition;
      }
    }

    /** `__zmgmt_send_flush_explicit_zrwa`; without a flush granule the method stops where the source divides
        by zero. */
    method SendFlush(zid: nat, slba: nat) returns (status: Status)
      requires Valid() && zid < zones.Length
      modifies this`counters, zones
      ensures Became(zid, FlushZrwa(p, zid, old(zones[zid]), old(counters), slba), status)
    {
      Held(p, Mac(), zid);
      status := Success;
      var wp, state := zones[zid].wp, zones[zid].state;
      var end := zid * p.zoneLbas + p.zoneLbas;
      var zrwaEnd := Min(Pred64(wp + p.lbasPerZrwa), end - 1);
      if !zones[zid].zrwav {
        return InvalidZoneOperation;
      }
      if !(slba >= wp && slba <= zrwaEnd) {
        return InvalidZoneOperation;
      }
      if p.lbasPerFg == 0 {
        return DivideError;
      }
      if (slba - wp + 1) % p.lbasPerFg != 0 {
        return InvalidField;
      }
      if state.OpenedExpl? || state.OpenedImpl? || state.Closed? {
        zones[zid] := zones[zid].(wp := slba + 1);
        if zones[zid].wp == end {
          if !state.Closed? {
            Release(OpenRes);
          }
          Release(ActiveZone);
          Release(ZrwaRes);
          ChangeState(zid, Full);
        }
      } else {
        status := InvalidZoneOperation;
      }
    }

    /** `__zmgmt_send` for the zone of the command. */
    method ZmgmtSend(cmd: Command, zid: nat) returns (status: Status)
      requires Valid() && zid < zones.Length && !cmd.Write?
      modifies this, zones
      ensures Valid() && Mac() == Apply(p, old(Mac()), cmd, zid)
      ensures status == ZoneEffect(p, cmd, zid, old(zones[zid]), old(counters)).status
      ensures Reports(p, cmd, zid, old(zones[zid]), old(counters), status)
    {
      StatusOf(p, Mac(), cmd, zid);
      ApplyInv(p, Mac(), cmd, zid);
      hide Inv, Reports;
      match cmd {
        case Close => status := SendClose(zid);
        case Finish => status := SendFinish(zid);
        case Open(withZrwa) => status := SendOpen(zid, withZrwa);
        case Reset => status := SendReset(zid);
        case TakeOffline => status := SendOffline(zid);
        case Flush(slba) => status := SendFlush(zid, slba);
      }
      Observe(Apply(p, old(Mac()), cmd, zid));
    }

    /** `zns_zmgmt_send`: one zone, or with select-all every zone, whose failures are not reported. */
    method ZnsZmgmtSend(cmd: Command, slba: nat, selectAll: bool) returns (status: Status)
      requires Valid() && !cmd.Write? && (cmd.Flush? ==> cmd.flushLba == slba)
      requires selectAll || ZoneOf(p, slba) < zones.Length
      modifies this, zones
      ensures Valid() && Served(p, old(Mac()), if selectAll then ForAll(cmd) else ForLba(cmd, slba), Mac())
      ensures if selectAll then status == Success
              else Reported(p, old(Mac()), cmd, ZoneOf(p, slba), Mac(), status, 0)
    {
      hide ZoneEffect, Apply, ZoneOk, TilesOk, Counted, WithinLimits, Reports;
      status := Success;
      if selectAll {
        var zid := 0;
        while zid < p.nrZones
          invariant 0 <= zid <= p.nrZones && Valid()
          invariant Mac() == ApplyAll(p, old(Mac()), cmd, zid)
        {
          var ignored := ZmgmtSend(ForZone(p, cmd, zid), zid);
          zid := zid + 1;
        }
      } else {
        status := ZmgmtSend(cmd, ZoneOf(p, slba));
      }
    }

    /** `__increase_write_ptr`. */
    method IncreaseWritePtr(zid: nat, nr: nat)
      requires zid < zones.Length && counters.active > 0 && counters.open > 0
      modifies this`counters, zones
      ensures Became(zid, IncreaseWp(p, zid, old(zones[zid]), old(counters), nr), Success)
    {
      var wp := zones[zid].wp + nr;
      zones[zid] := zones[zid].(wp := wp);
      if wp == zid * p.zoneLbas + p.zoneLbas {
        Release(OpenRes);
        Release(ActiveZone);
        ChangeState(zid, Full);
      }
    }

    /** `__zns_write` up to the write pointer. `ret` is the result field of an append. */
    method WriteToZone(zid: nat, lba: nat, nr: nat, isAppend: bool) returns (status: Status, ret: nat)
      requires Valid() && zid < zones.Length && nr > 0
      modifies this`counters, zones
      ensures Became(zid, WritePlain(p, zid, old(zones[zid]), old(counters), lba, nr, isAppend), status)
      ensures isAppend ==> ret == old(zones[zid]).wp
    {
      hide Inv, ZoneOf;
      Held(p, Mac(), zid);
      assert Mac().zones[zid] == zones[zid];
      status := Success;
      ret := 0;
      var slba, state := lba, zones[zid].state;
      if isAppend {
        slba := zones[zid].wp;
        ret := slba;
      }
      if nr * LBA_SIZE % p.writeUnit != 0 {
        return InvalidWrite, ret;
      }
      if ZoneOf(p, slba) != ZoneOf(p, slba + nr - 1) {
        return ErrBoundary, ret;
      }
      if slba != zones[zid].wp {
        return InvalidWrite, ret;
      }
      if state.Empty? {
        if slba != zid * p.zoneLbas {
          return InvalidWrite, ret;
        }
        if IsFull(ActiveZone) {
          return NoActiveZone, ret;
        }
        if IsFull(OpenRes) {
          return NoOpenZone, ret;
        }
        var got := Acquire(ActiveZone);
      }
      if state.Empty? || state.Closed? {
        var got := Acquire(OpenRes);
        if !got {
          return NoOpenZone, ret;
        }
        ChangeState(zid, OpenedImpl);
      } else if state.Full? {
        return ErrFull, ret;
      } else if state.ReadOnly? {
        return ErrReadOnly, ret;
      } else if state.Offline? {
        return ErrOffline, ret;
      }
      IncreaseWritePtr(zid, nr);
    }

    /** `__zns_write_zrwa` up to the write pointer; `flushOk` says whether the ZRWA buffer has room. It stops at
        the division by zero like the explicit flush. */
    method WriteToZrwa(zid: nat, slba: nat, nr: nat, flushOk: bool) returns (status: Status)
      requires Valid() && zid < zones.Length && nr > 0 && zones[zid].zrwav
      modifies this`counters, zones
      ensures Became(zid, WriteZrwa(p, zid, old(zones[zid]), old(counters), slba, nr, flushOk), status)
    {
      hide Inv, DivRoundUp, ZoneOf, Pred64;
      Held(p, Mac(), zid);
      assert Mac().zones[zid] == zones[zid];
      status := Success;
      var elba, state, wp := slba + nr - 1, zones[zid].state, zones[zid].wp;
      var implStart, implEnd := wp + p.lbasPerZrwa, Pred64(wp + 2 * p.lbasPerZrwa);
      if nr * LBA_SIZE % p.writeUnit != 0 {
        return InvalidWrite;
      }
      if ZoneOf(p, slba) != ZoneOf(p, slba + nr - 1) {
        return ErrBoundary;
      }
      if slba < wp || elba > implEnd {
        return InvalidWrite;
      }
      if state.Closed? || state.Empty? {
        var got := Acquire(OpenRes);
        if !got {
          return NoOpenZone;
        }
        ChangeState(zid, OpenedImpl);
      } else if state.Full? {
        return ErrFull;
      } else if state.ReadOnly? {
        return ErrReadOnly;
      } else if state.Offline? {
        return ErrOffline;
      }
      var flush: nat := 0;
      if elba >= implStart {
        if p.lbasPerFg == 0 {
          return DivideError;
        }
        flush := DivRoundUp(elba - implStart + 1, p.lbasPerFg) * p.lbasPerFg;
      } else if elba == zid * p.zoneLbas + p.zoneLbas - 1 {
        flush := elba - wp + 1;
      }
      if flush > 0 {
        if !flushOk {
          return;
        }
        IncreaseWritePtr(zid, flush);
      }
    }

    /** `zns_write`. */
    method ZnsWrite(lba: nat, nr: nat, isAppend: bool, flushOk: bool) returns (status: Status, ret: nat)
      requires Valid() && nr > 0 && ZoneOf(p, lba) < zones.Length
      modifies this, zones
      ensures var cmd := Write(lba, nr, isAppend, flushOk);
        && Valid() && Served(p, old(Mac()), ForLba(cmd, lba), Mac())
        && Reported(p, old(Mac()), cmd, ZoneOf(p, lba), Mac(), status, ret)
    {
      var zid := ZoneOf(p, lba);
      ghost var cmd := Write(lba, nr, isAppend, flushOk);
      WriteServed(p, Mac(), cmd, zid, if isAppend then zones[zid].wp else 0);
      hide Inv, Serve, Served, Reported, Reports, WritePlain, WriteZrwa, FillsZrwa, NewTiles;
      ret := 0;
      if !zones[zid].zrwav {
        status, ret := WriteToZone(zid, lba, nr, isAppend);
      } else {
        status := WriteToZrwa(zid, lba, nr, flushOk);
      }
      Observe(Apply(p, old(Mac()), cmd, zid));
    }
  }
}
