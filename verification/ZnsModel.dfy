/** The zone state machine of zns_mgmt_send.c and zns_read_write.c as functions on one zone descriptor.
    A command's effect says what becomes of the zone and how much it adds to the resource counters. */
module ZnsModel {
  import opened Arith

  datatype State = Empty | OpenedImpl | OpenedExpl | Closed | ReadOnly | Full | Offline

  /** `struct zone_descriptor`; the start and the capacity follow from the zone number. */
  datatype Zone = Zone(state: State, wp: nat, zrwav: bool)

  /** DivideError is no status of the source: the command stops at a division by zero. */
  datatype Status =
    | Success | InvalidTransition | InvalidZoneOperation | InvalidField | InvalidWrite | ErrBoundary | ErrFull
    | ErrReadOnly | ErrOffline | NoActiveZone | NoOpenZone | ZrwaUnavailable | DivideError

  /** `struct znsparams` and the totals of `res_infos`, in LBAs where the source has bytes. */
  datatype Params = Params(nrZones: nat, zoneLbas: nat, maxActive: nat, maxOpen: nat, maxZrwa: nat,
                           lbasPerZrwa: nat, lbasPerFg: nat, writeUnit: nat)

  const LBA_SIZE: nat := 512

  /** `zone_size` is a 32-bit number of bytes. A device without ZRWA has `lbas_per_zrwa` and
      `lbas_per_zrwafg` zero. */
  predicate Consistent(p: Params) {
    0 < p.zoneLbas < TWO64 && p.writeUnit > 0
  }

  const TWO64: nat := 0x1_0000_0000_0000_0000

  /** `x - 1` in 64 bits. */
  function Pred64(x: nat): nat {
    if x == 0 then TWO64 - 1 else x - 1
  }

  datatype Counters = Counters(active: int, open: int, zrwa: int)

  datatype Effect = Effect(zone: Zone, counters: Counters, status: Status)

  predicate IsOpen(z: Zone) {
    z.state.OpenedImpl? || z.state.OpenedExpl?
  }

  predicate IsActive(z: Zone) {
    IsOpen(z) || z.state.Closed?
  }

  /** An active zone that was opened with ZRWA. */
  predicate HoldsZrwa(z: Zone) {
    IsActive(z) && z.zrwav
  }

  function Start(p: Params, zid: nat): nat {
    zid * p.zoneLbas
  }

  function End(p: Params, zid: nat): nat {
    zid * p.zoneLbas + p.zoneLbas
  }

  /** `lba_to_zone`. */
  function ZoneOf(p: Params, lba: nat): nat
    requires p.zoneLbas > 0
  {
    lba / p.zoneLbas
  }

  // ---------- zone management (zns_mgmt_send.c) ----------

  function CloseZone(z: Zone, c: Counters): Effect {
    match z.state
    case OpenedImpl | OpenedExpl => Effect(z.(state := Closed), c.(open := c.open - 1), Success)
    case Closed => Effect(z, c, Success)
    case _ => Effect(z, c, InvalidTransition)
  }

  function FinishZone(z: Zone, c: Counters): Effect {
    if IsActive(z) then
      Effect(z.(state := Full),
             Counters(c.active - 1, if IsOpen(z) then c.open - 1 else c.open, if z.zrwav then c.zrwa - 1 else c.zrwa),
             Success)
    else if z.state.Empty? || z.state.Full? then Effect(z.(state := Full), c, Success)
    else Effect(z, c, InvalidTransition)
  }

  function OpenZone(p: Params, z: Zone, c: Counters, zrwa: bool): Effect {
    match z.state
    case Empty =>
      if c.active == p.maxActive then Effect(z, c, NoActiveZone)
      else if c.open == p.maxOpen then Effect(z, c, NoOpenZone)
      else if zrwa && c.zrwa == p.maxZrwa then Effect(z, c, ZrwaUnavailable)
      else
        Effect(z.(state := OpenedExpl, zrwav := z.zrwav || zrwa),
               Counters(c.active + 1, c.open + 1, if zrwa then c.zrwa + 1 else c.zrwa), Success)
    case Closed =>
      if c.open < p.maxOpen then Effect(z.(state := OpenedExpl), c.(open := c.open + 1), Success)
      else Effect(z, c, NoOpenZone)
    case OpenedImpl | OpenedExpl => Effect(z.(state := OpenedExpl), c, Success)
    case _ => Effect(z, c, InvalidTransition)
  }

  function ResetZone(p: Params, zid: nat, z: Zone, c: Counters): Effect {
    if IsActive(z) then
      Effect(Zone(Empty, Start(p, zid), false),
             Counters(c.active - 1, if IsOpen(z) then c.open - 1 else c.open, if z.zrwav then c.zrwa - 1 else c.zrwa),
             Success)
    else if z.state.Empty? || z.state.Full? then Effect(Zone(Empty, Start(p, zid), false), c, Success)
    else Effect(z, c, InvalidTransition)
  }

  function OfflineZone(z: Zone, c: Counters): Effect {
    if z.state.ReadOnly? || z.state.Offline? then Effect(z.(state := Offline), c, Success)
    else Effect(z, c, InvalidTransition)
  }

  /** The last LBA an explicit flush may name. */
  function ZrwaEnd(p: Params, zid: nat, wp: nat): nat
    requires p.zoneLbas > 0
  {
    Min(Pred64(wp + p.lbasPerZrwa), End(p, zid) - 1)
  }

  /** `__zmgmt_send_flush_explicit_zrwa` up to and including `slba`. */
  function FlushZrwa(p: Params, zid: nat, z: Zone, c: Counters, slba: nat): Effect
    requires p.zoneLbas > 0
  {
    if !z.zrwav || !(z.wp <= slba <= ZrwaEnd(p, zid, z.wp)) then Effect(z, c, InvalidZoneOperation)
    else if p.lbasPerFg == 0 then Effect(z, c, DivideError)
    else if (slba - z.wp + 1) % p.lbasPerFg != 0 then Effect(z, c, InvalidField)
    else if !IsActive(z) then Effect(z, c, InvalidZoneOperation)
    else if slba + 1 == End(p, zid) then
      Effect(z.(wp := slba + 1, state := Full),
             Counters(c.active - 1, if IsOpen(z) then c.open - 1 else c.open, c.zrwa - 1), Success)
    else Effect(z.(wp := slba + 1), c, Success)
  }

  // ---------- writes (zns_read_write.c) ----------

  /** `__check_boundary_error`: all LBAs lie in one zone. */
  predicate InOneZone(p: Params, slba: nat, nr: nat)
    requires p.zoneLbas > 0 && nr > 0
  {
    ZoneOf(p, slba) == ZoneOf(p, slba + nr - 1)
  }

  predicate Aligned(p: Params, nr: nat)
    requires p.writeUnit > 0
  {
    nr * LBA_SIZE % p.writeUnit == 0
  }

  /** `__increase_write_ptr`; the last branch is the write boundary error that changes nothing else. */
  function IncreaseWp(p: Params, zid: nat, z: Zone, c: Counters, nr: nat): Effect {
    var wp := z.wp + nr;
    if wp == End(p, zid) then
      Effect(z.(wp := wp, state := Full), Counters(c.active - 1, c.open - 1, c.zrwa), Success)
    else Effect(z.(wp := wp), c, Success)
  }

  /** What `__zns_write` does before the write pointer moves: the zone is opened implicitly if need be. */
  function OpenForWrite(p: Params, zid: nat, z: Zone, c: Counters, slba: nat): Effect {
    match z.state
    case Empty =>
      if slba != Start(p, zid) then Effect(z, c, InvalidWrite)
      else if c.active == p.maxActive then Effect(z, c, NoActiveZone)
      else if c.open == p.maxOpen then Effect(z, c, NoOpenZone)
      else Effect(z.(state := OpenedImpl), Counters(c.active + 1, c.open + 1, c.zrwa), Success)
    case Closed =>
      if c.open < p.maxOpen then Effect(z.(state := OpenedImpl), c.(open := c.open + 1), Success)
      else Effect(z, c, NoOpenZone)
    case OpenedImpl | OpenedExpl => Effect(z, c, Success)
    case Full => Effect(z, c, ErrFull)
    case ReadOnly => Effect(z, c, ErrReadOnly)
    case Offline => Effect(z, c, ErrOffline)
  }

  /** `__zns_write`; an append goes to the write pointer wherever it is. */
  function WritePlain(p: Params, zid: nat, z: Zone, c: Counters, lba: nat, nr: nat, isAppend: bool): Effect
    requires Consistent(p) && nr > 0
  {
    var slba := if isAppend then z.wp else lba;
    if !Aligned(p, nr) then Effect(z, c, InvalidWrite)
    else if !InOneZone(p, slba, nr) then Effect(z, c, ErrBoundary)
    else if slba != z.wp then Effect(z, c, InvalidWrite)
    else
      var o := OpenForWrite(p, zid, z, c, slba);
      if o.status != Success then o else IncreaseWp(p, zid, o.zone, o.counters, nr)
  }

  /** `__zns_write_zrwa`: an empty or closed zone takes an OPEN resource only. */
  function OpenForZrwa(p: Params, z: Zone, c: Counters): Effect {
    match z.state
    case Closed | Empty =>
      if c.open < p.maxOpen then Effect(z.(state := OpenedImpl), c.(open := c.open + 1), Success)
      else Effect(z, c, NoOpenZone)
    case OpenedImpl | OpenedExpl => Effect(z, c, Success)
    case Full => Effect(z, c, ErrFull)
    case ReadOnly => Effect(z, c, ErrReadOnly)
    case Offline => Effect(z, c, ErrOffline)
  }

  /** How many LBAs the write flushes implicitly: whole granules so that it fits into the ZRWA again, or
      everything at the end of the zone. */
  function ImplicitFlush(p: Params, zid: nat, wp: nat, elba: nat): nat
    requires wp <= elba && (elba >= wp + p.lbasPerZrwa ==> p.lbasPerFg > 0)
  {
    if elba >= wp + p.lbasPerZrwa then DivRoundUp(elba - (wp + p.lbasPerZrwa) + 1, p.lbasPerFg) * p.lbasPerFg
    else if elba == End(p, zid) - 1 then elba - wp + 1
    else 0
  }

  /** `flushOk`: the ZRWA buffer has room for the flush; without it the command is put back after the zone
      has been opened. */
  function WriteZrwa(p: Params, zid: nat, z: Zone, c: Counters, slba: nat, nr: nat, flushOk: bool): Effect
    requires Consistent(p) && nr > 0
  {
    var elba := slba + nr - 1;
    if !Aligned(p, nr) then Effect(z, c, InvalidWrite)
    else if !InOneZone(p, slba, nr) then Effect(z, c, ErrBoundary)
    else if slba < z.wp || elba > Pred64(z.wp + 2 * p.lbasPerZrwa) then Effect(z, c, InvalidWrite)
    else
      var o := OpenForZrwa(p, z, c);
      if o.status != Success then o
      else if elba >= z.wp + p.lbasPerZrwa && p.lbasPerFg == 0 then o.(status := DivideError)
      else
        var flush := ImplicitFlush(p, zid, z.wp, elba);
        if flush == 0 || !flushOk then o
        else IncreaseWp(p, zid, o.zone, o.counters, flush)
  }

  // ---------- one zone command ----------

  datatype Command =
    | Close | Finish | Open(zrwa: bool) | Reset | TakeOffline | Flush(flushLba: nat)
    | Write(lba: nat, nr: nat, isAppend: bool, flushOk: bool)

  predicate WellFormed(cmd: Command) {
    cmd.Write? ==> cmd.nr > 0
  }

  /** What the command does to zone `zid`. */
  function ZoneEffect(p: Params, cmd: Command, zid: nat, z: Zone, c: Counters): Effect
    requires Consistent(p) && WellFormed(cmd)
  {
    match cmd
    case Close => CloseZone(z, c)
    case Finish => FinishZone(z, c)
    case Open(zrwa) => OpenZone(p, z, c, zrwa)
    case Reset => ResetZone(p, zid, z, c)
    case TakeOffline => OfflineZone(z, c)
    case Flush(slba) => FlushZrwa(p, zid, z, c, slba)
    case Write(lba, nr, isAppend, flushOk) =>
      if z.zrwav then WriteZrwa(p, zid, z, c, lba, nr, flushOk) else WritePlain(p, zid, z, c, lba, nr, isAppend)
  }

  // ---------- what every command keeps ----------

  /** An empty zone has no ZRWA and nothing written, an active zone is not filled, and a zone without ZRWA
      never goes past its end. */
  predicate ZoneOk(p: Params, zid: nat, z: Zone) {
    && Start(p, zid) <= z.wp
    && (z.state.Empty? ==> z.wp == Start(p, zid) && !z.zrwav)
    && (IsActive(z) ==> z.wp != End(p, zid))
    && (!z.zrwav ==> z.wp <= End(p, zid))
  }

  predicate WithinLimits(p: Params, c: Counters) {
    c.active <= p.maxActive && c.open <= p.maxOpen && c.zrwa <= p.maxZrwa
  }

  function One(b: bool): int {
    if b then 1 else 0
  }

  /** A write of `nr` LBAs from `slba` on, to an active zone with ZRWA, that gets as far as its implicit flush: it
      passes the checks, the zone is or can be opened, and no division by zero is met. */
  predicate GetsToFlush(p: Params, z: Zone, c: Counters, slba: nat, nr: nat)
    requires Consistent(p) && nr > 0
  {
    && Aligned(p, nr) && InOneZone(p, slba, nr)
    && z.wp <= slba && slba + nr - 1 <= Pred64(z.wp + 2 * p.lbasPerZrwa)
    && (IsOpen(z) || c.open < p.maxOpen)
    && (slba + nr - 1 >= z.wp + p.lbasPerZrwa ==> p.lbasPerFg > 0)
  }

  /** A write whose implicit flush takes the write pointer of a zone with ZRWA exactly to its end. The zone becomes full
      and keeps the ZRWA resource. */
  predicate FillsZrwa(p: Params, cmd: Command, zid: nat, z: Zone, c: Counters)
    requires Consistent(p) && WellFormed(cmd)
  {
    && cmd.Write? && HoldsZrwa(z) && cmd.flushOk && GetsToFlush(p, z, c, cmd.lba, cmd.nr)
    && z.wp + ImplicitFlush(p, zid, z.wp, cmd.lba + cmd.nr - 1) == End(p, zid)
  }

  /** The counters follow the zone, except that a filling write does not give the ZRWA resource back. */
  predicate Follows(p: Params, cmd: Command, zid: nat, z: Zone, c: Counters, e: Effect)
    requires Consistent(p) && WellFormed(cmd)
  {
    && e.counters.active - c.active == One(IsActive(e.zone)) - One(IsActive(z))
    && e.counters.open - c.open == One(IsOpen(e.zone)) - One(IsOpen(z))
    && e.counters.zrwa - c.zrwa == One(HoldsZrwa(e.zone)) - One(HoldsZrwa(z)) + One(FillsZrwa(p, cmd, zid, z, c))
  }

  predicate Sound(p: Params, cmd: Command, zid: nat, z: Zone, c: Counters, e: Effect)
    requires Consistent(p) && WellFormed(cmd)
  {
    ZoneOk(p, zid, e.zone) && WithinLimits(p, e.counters) && Follows(p, cmd, zid, z, c, e)
  }

  lemma StaysInZone(p: Params, zid: nat, slba: nat, nr: nat)
    requires p.zoneLbas > 0 && nr > 0 && Start(p, zid) <= slba < End(p, zid)
    ensures InOneZone(p, slba, nr) <==> slba + nr <= End(p, zid)
  {
    var q := ZoneOf(p, slba + nr - 1);
    DigitsUnique(zid, slba - Start(p, zid), p.zoneLbas);
    assert slba + nr - 1 == q * p.zoneLbas + (slba + nr - 1) % p.zoneLbas;
    if slba + nr <= End(p, zid) {
      DigitsUnique(zid, slba + nr - 1 - Start(p, zid), p.zoneLbas);
    }
  }

  /** A write without ZRWA that passes the checks never crosses the end of its zone: the write boundary error
      of `__increase_write_ptr` cannot occur. */
  lemma PlainWriteFits(p: Params, zid: nat, z: Zone, nr: nat)
    requires Consistent(p) && nr > 0 && Start(p, zid) <= z.wp < End(p, zid) && InOneZone(p, z.wp, nr)
    ensures z.wp + nr <= End(p, zid)
  {
    StaysInZone(p, zid, z.wp, nr);
  }

  lemma PlainNeverFills(p: Params, cmd: Command, zid: nat, z: Zone, c: Counters)
    requires Consistent(p) && WellFormed(cmd) && !z.zrwav
    ensures !FillsZrwa(p, cmd, zid, z, c)
  {
  }

  lemma PlainSound(p: Params, zid: nat, z: Zone, c: Counters, cmd: Command)
    requires Consistent(p) && cmd.Write? && cmd.nr > 0 && ZoneOk(p, zid, z) && WithinLimits(p, c) && !z.zrwav
    ensures Sound(p, cmd, zid, z, c, WritePlain(p, zid, z, c, cmd.lba, cmd.nr, cmd.isAppend))
  {
    hide InOneZone, Aligned, FillsZrwa;
    PlainNeverFills(p, cmd, zid, z, c);
    if InOneZone(p, z.wp, cmd.nr) && z.wp < End(p, zid) {
      PlainWriteFits(p, zid, z, cmd.nr);
    }
  }

  lemma ZrwaSound(p: Params, zid: nat, z: Zone, c: Counters, cmd: Command)
    requires Consistent(p) && cmd.Write? && cmd.nr > 0 && ZoneOk(p, zid, z) && WithinLimits(p, c) && z.zrwav
    ensures Sound(p, cmd, zid, z, c, WriteZrwa(p, zid, z, c, cmd.lba, cmd.nr, cmd.flushOk))
  {
    hide InOneZone, Aligned, ImplicitFlush, Pred64;
  }

  /** Every command keeps its zone in order, the counters in step with it and below their totals. */
  lemma CommandSound(p: Params, cmd: Command, zid: nat, z: Zone, c: Counters)
    requires Consistent(p) && WellFormed(cmd) && ZoneOk(p, zid, z) && WithinLimits(p, c)
    ensures Sound(p, cmd, zid, z, c, ZoneEffect(p, cmd, zid, z, c))
  {
    match cmd
    case Write(lba, nr, isAppend, flushOk) =>
      if z.zrwav {
        ZrwaSound(p, zid, z, c, cmd);
      } else {
        PlainSound(p, zid, z, c, cmd);
      }
      hide Sound, WritePlain, WriteZrwa;
    case _ =>
      hide WritePlain, WriteZrwa, ZrwaEnd;
  }

  // ---------- what a command reports ----------

  /** The state a successful command leaves its zone in. */
  predicate Reaches(p: Params, cmd: Command, zid: nat, z: Zone, t: Zone) {
    match cmd
    case Close => t == z.(state := Closed)
    case Finish => t == z.(state := Full)
    case Open(zrwa) => t == z.(state := OpenedExpl, zrwav := z.zrwav || (z.state.Empty? && zrwa))
    case Reset => t == Zone(Empty, Start(p, zid), false)
    case TakeOffline => t == z.(state := Offline)
    case Flush(slba) => t.wp == slba + 1 && t.zrwav && t.state == (if slba + 1 == End(p, zid) then Full else z.state)
    case Write(lba, nr, _, flushOk) =>
      && t.zrwav == z.zrwav
      && (if z.zrwav then FlushedTo(p, zid, z.wp, lba + nr, flushOk, t.wp) else t.wp == z.wp + nr)
      && t.state == (if t.wp == End(p, zid) then Full else if IsOpen(z) then z.state else OpenedImpl)
  }

  /** Where the write pointer goes when a write to a zone with ZRWA ends before LBA `end`: by the fewest granules that
      leave the write within the ZRWA, else to the end of the zone with the last LBA, else nowhere. */
  predicate FlushedTo(p: Params, zid: nat, wp: nat, end: nat, flushOk: bool, to: nat) {
    if !flushOk then to == wp
    else if end > wp + p.lbasPerZrwa then
      && p.lbasPerFg > 0 && to >= wp && Mod(to - wp, p.lbasPerFg) == 0
      && to + p.lbasPerZrwa >= end > to + p.lbasPerZrwa - p.lbasPerFg
    else if end == End(p, zid) then to == end
    else to == wp
  }

  lemma FlushesTo(p: Params, zid: nat, wp: nat, elba: nat)
    requires wp <= elba && (elba >= wp + p.lbasPerZrwa ==> p.lbasPerFg > 0)
    ensures FlushedTo(p, zid, wp, elba + 1, true, wp + ImplicitFlush(p, zid, wp, elba))
    ensures ImplicitFlush(p, zid, wp, elba) == 0 ==> FlushedTo(p, zid, wp, elba + 1, true, wp)
  {
    if elba >= wp + p.lbasPerZrwa {
      var k := DivRoundUp(elba - (wp + p.lbasPerZrwa) + 1, p.lbasPerFg);
      DigitsUnique(k, 0, p.lbasPerFg);
      assert (k - 1) * p.lbasPerFg == k * p.lbasPerFg - p.lbasPerFg;
    }
  }

  lemma ZrwaReaches(p: Params, zid: nat, z: Zone, c: Counters, cmd: Command)
    requires Consistent(p) && cmd.Write? && cmd.nr > 0 && ZoneOk(p, zid, z) && z.zrwav
    ensures var e := WriteZrwa(p, zid, z, c, cmd.lba, cmd.nr, cmd.flushOk);
      && (e.status != Success && e.status != DivideError ==> e.zone == z && e.counters == c)
      && (e.status == DivideError ==> e.zone == z.(state := if IsOpen(z) then z.state else OpenedImpl))
      && (e.status == Success ==> Reaches(p, cmd, zid, z, e.zone))
  {
    hide InOneZone, Aligned, Pred64, ImplicitFlush, FlushedTo;
    var elba := cmd.lba + cmd.nr - 1;
    NoFlush(p, zid, z.wp, cmd.lba + cmd.nr);
    if z.wp <= elba && (elba >= z.wp + p.lbasPerZrwa ==> p.lbasPerFg > 0) {
      FlushesTo(p, zid, z.wp, elba);
    }
  }

  lemma NoFlush(p: Params, zid: nat, wp: nat, end: nat)
    ensures FlushedTo(p, zid, wp, end, false, wp)
    ensures forall to: nat :: FlushedTo(p, zid, wp, end, true, to) ==> to >= wp || to == end
  {
  }

  /** A command that reports an error changes nothing, and one that succeeds brings its zone where the state
      machine of section 2.1.1 of the Zoned Namespace Command Set says. */
  lemma StatusTells(p: Params, cmd: Command, zid: nat, z: Zone, c: Counters)
    requires Consistent(p) && WellFormed(cmd) && ZoneOk(p, zid, z) && WithinLimits(p, c)
    ensures var e := ZoneEffect(p, cmd, zid, z, c);
      && (e.status != Success && e.status != DivideError ==> e.zone == z && e.counters == c)
      && (e.status == DivideError ==> e.zone == if cmd.Write? && !IsOpen(z) then z.(state := OpenedImpl) else z)
      && (e.status == Success ==> Reaches(p, cmd, zid, z, e.zone))
  {
    if cmd.Write? && z.zrwav {
      ZrwaReaches(p, zid, z, c, cmd);
    }
    hide InOneZone, Aligned, Pred64, ImplicitFlush, WriteZrwa, FlushedTo;
  }

  // ---------- when it reports it ----------

  /** The zone is open or can be opened by a write: a closed one with an OPEN resource, an empty one with an ACTIVE
      resource, too. */
  predicate Openable(p: Params, z: Zone, c: Counters) {
    || z.state.OpenedImpl? || z.state.OpenedExpl?
    || (z.state.Closed? && c.open < p.maxOpen)
    || (z.state.Empty? && c.active < p.maxActive && c.open < p.maxOpen)
  }

  /** An OPEN resource is what is missing to open the zone. */
  predicate LacksOpen(p: Params, z: Zone, c: Counters) {
    c.open == p.maxOpen && (z.state.Closed? || (z.state.Empty? && c.active < p.maxActive))
  }

  predicate OpenReports(p: Params, z: Zone, c: Counters, zrwa: bool, s: Status) {
    match s
    case Success => Openable(p, z, c) && (z.state.Empty? && zrwa ==> c.zrwa < p.maxZrwa)
    case NoActiveZone => z.state.Empty? && c.active == p.maxActive
    case NoOpenZone => LacksOpen(p, z, c)
    case ZrwaUnavailable => z.state.Empty? && Openable(p, z, c) && zrwa && c.zrwa == p.maxZrwa
    case InvalidTransition => z.state.Full? || z.state.ReadOnly? || z.state.Offline?
    case _ => false
  }

  /** An explicit flush names an LBA of the ZRWA and of the zone. Without anything written and without a ZRWA
      the end of the ZRWA wraps around. */
  predicate FlushReports(p: Params, zid: nat, z: Zone, slba: nat, s: Status) {
    var named := z.zrwav && z.wp <= slba < End(p, zid) && (slba < z.wp + p.lbasPerZrwa || z.wp + p.lbasPerZrwa == 0);
    var active := z.state.OpenedImpl? || z.state.OpenedExpl? || z.state.Closed?;
    match s
    case Success => named && p.lbasPerFg > 0 && Mod(slba - z.wp + 1, p.lbasPerFg) == 0 && active
    case InvalidField => named && p.lbasPerFg > 0 && Mod(slba - z.wp + 1, p.lbasPerFg) != 0
    case DivideError => named && p.lbasPerFg == 0
    case InvalidZoneOperation => !named || (p.lbasPerFg > 0 && Mod(slba - z.wp + 1, p.lbasPerFg) == 0 && !active)
    case _ => false
  }

  /** The length is a multiple of the write unit. */
  predicate InUnits(p: Params, nr: nat)
    requires p.writeUnit > 0
  {
    Mod(nr * 512, p.writeUnit) == 0
  }

  /** What the checks of a write have passed for, given whether the zone can take the data `due` there. */
  predicate DueReports(p: Params, z: Zone, c: Counters, inUnits: bool, inZone: bool, due: bool, s: Status) {
    match s
    case InvalidWrite => !inUnits || (inZone && !due)
    case ErrBoundary => inUnits && !inZone
    case ErrFull => inUnits && inZone && due && z.state.Full?
    case ErrReadOnly => inUnits && inZone && due && z.state.ReadOnly?
    case ErrOffline => inUnits && inZone && due && z.state.Offline?
    case NoActiveZone => inUnits && inZone && due && z.state.Empty? && c.active == p.maxActive
    case NoOpenZone => inUnits && inZone && due && LacksOpen(p, z, c)
    case _ => false
  }

  /** A write without ZRWA must be in write units, end in the zone it begins in and begin at the write pointer, which an
      append always does; and the zone must be open or openable. */
  predicate PlainReports(p: Params, z: Zone, c: Counters, lba: nat, nr: nat, isAppend: bool, s: Status)
    requires Consistent(p)
  {
    var at := if isAppend then z.wp else lba;
    var inZone := Mod(at, p.zoneLbas) + nr <= p.zoneLbas;
    if s == Success then InUnits(p, nr) && inZone && at == z.wp && Openable(p, z, c)
    else DueReports(p, z, c, InUnits(p, nr), inZone, at == z.wp, s)
  }

  /** A write with ZRWA begins at the write pointer or behind it and ends at most two ZRWAs behind it. */
  predicate ZrwaReports(p: Params, z: Zone, c: Counters, lba: nat, nr: nat, s: Status)
    requires Consistent(p)
  {
    var inZone := Mod(lba, p.zoneLbas) + nr <= p.zoneLbas;
    var limit := z.wp + 2 * p.lbasPerZrwa;
    var due := z.wp <= lba && lba + nr <= if limit == 0 then 0x1_0000_0000_0000_0000 else limit;
    var divides := lba + nr > z.wp + p.lbasPerZrwa && p.lbasPerFg == 0;
    if s == Success then InUnits(p, nr) && inZone && due && Openable(p, z, c) && !divides
    else if s == DivideError then InUnits(p, nr) && inZone && due && Openable(p, z, c) && divides
    else DueReports(p, z, c, InUnits(p, nr), inZone, due, s)
  }

  /** Exactly when a command reports a status. */
  predicate Reports(p: Params, cmd: Command, zid: nat, z: Zone, c: Counters, s: Status)
    requires Consistent(p)
  {
    match cmd
    case Close =>
      if z.state.OpenedImpl? || z.state.OpenedExpl? || z.state.Closed? then s == Success else s == InvalidTransition
    case Finish | Reset => if z.state.ReadOnly? || z.state.Offline? then s == InvalidTransition else s == Success
    case TakeOffline => if z.state.ReadOnly? || z.state.Offline? then s == Success else s == InvalidTransition
    case Open(zrwa) => OpenReports(p, z, c, zrwa, s)
    case Flush(slba) => FlushReports(p, zid, z, slba, s)
    case Write(lba, nr, isAppend, _) =>
      if z.zrwav then ZrwaReports(p, z, c, lba, nr, s) else PlainReports(p, z, c, lba, nr, isAppend, s)
  }

  lemma ChecksExact(p: Params, slba: nat, nr: nat)
    requires Consistent(p) && nr > 0
    ensures InOneZone(p, slba, nr) <==> Mod(slba, p.zoneLbas) + nr <= p.zoneLbas
    ensures Aligned(p, nr) <==> InUnits(p, nr)
  {
    var zid := Div(slba, p.zoneLbas);
    assert slba == zid * p.zoneLbas + Mod(slba, p.zoneLbas);
    StaysInZone(p, zid, slba, nr);
  }

  lemma PlainExact(p: Params, cmd: Command, zid: nat, z: Zone, c: Counters, s: Status)
    requires Consistent(p) && cmd.Write? && cmd.nr > 0 && ZoneOk(p, zid, z) && WithinLimits(p, c) && !z.zrwav
    ensures WritePlain(p, zid, z, c, cmd.lba, cmd.nr, cmd.isAppend).status == s
      <==> PlainReports(p, z, c, cmd.lba, cmd.nr, cmd.isAppend, s)
  {
    ChecksExact(p, if cmd.isAppend then z.wp else cmd.lba, cmd.nr);
    hide InOneZone, Aligned, InUnits, Mod;
  }

  lemma ZrwaExact(p: Params, cmd: Command, zid: nat, z: Zone, c: Counters, s: Status)
    requires Consistent(p) && cmd.Write? && cmd.nr > 0 && ZoneOk(p, zid, z) && WithinLimits(p, c) && z.zrwav
    ensures WriteZrwa(p, zid, z, c, cmd.lba, cmd.nr, cmd.flushOk).status == s
      <==> ZrwaReports(p, z, c, cmd.lba, cmd.nr, s)
  {
    ChecksExact(p, cmd.lba, cmd.nr);
    hide InOneZone, Aligned, InUnits, Mod, ImplicitFlush;
  }

  /** Every command reports a status under exactly the condition that `Reports` states for it: in particular it succeeds
      if and only if the zone, the counters and the parameters allow it. */
  lemma StatusExact(p: Params, cmd: Command, zid: nat, z: Zone, c: Counters, s: Status)
    requires Consistent(p) && WellFormed(cmd) && ZoneOk(p, zid, z) && WithinLimits(p, c)
    ensures ZoneEffect(p, cmd, zid, z, c).status == s <==> Reports(p, cmd, zid, z, c, s)
  {
    if cmd.Write? {
      if z.zrwav {
        ZrwaExact(p, cmd, zid, z, c, s);
      } else {
        PlainExact(p, cmd, zid, z, c, s);
      }
      hide WritePlain, WriteZrwa, PlainReports, ZrwaReports;
    }
  }

  // ---------- the ZRWA and the end of the zone ----------

  /** The LBA of a write lies in the zone it goes to. */
  predicate Addressed(p: Params, cmd: Command, zid: nat)
    requires p.zoneLbas > 0
  {
    cmd.Write? ==> ZoneOf(p, cmd.lba) == zid
  }

  /** A write of `nr` LBAs that the checks let end behind the ZRWA when only the last, incomplete granule of
      the zone is left. */
  predicate Overshoots(p: Params, nr: nat)
    requires p.writeUnit > 0 && p.lbasPerFg > 0
  {
    && 0 < nr && Aligned(p, nr)
    && nr <= (if p.lbasPerZrwa == 0 then p.zoneLbas else Min(2 * p.lbasPerZrwa, Mod(p.zoneLbas, p.lbasPerFg)))
  }

  /** What is left of a zone after its last whole granule fits into the ZRWA, or the write unit is too coarse
      to write it. */
  ghost predicate GranulesFit(p: Params)
    requires p.writeUnit > 0
  {
    || p.lbasPerFg == 0
    || Mod(p.zoneLbas, p.lbasPerFg) <= p.lbasPerZrwa
    || forall nr: nat :: !Overshoots(p, nr)
  }

  /** A zone with ZRWA is written in whole granules or to its end. */
  predicate InGranules(p: Params, zid: nat, z: Zone)
    requires Start(p, zid) <= z.wp
  {
    z.zrwav ==>
      && z.wp <= End(p, zid)
      && (p.lbasPerFg == 0 || z.wp == End(p, zid) || Mod(z.wp - Start(p, zid), p.lbasPerFg) == 0)
  }

  lemma MoreGranules(w: nat, k: nat, g: nat)
    requires g > 0 && Mod(w, g) == 0
    ensures Mod(w + k * g, g) == 0
  {
    var m := Div(w, g);
    assert w == m * g;
    Distribute(m, k, g);
    DigitsUnique(m + k, 0, g);
  }

  /** Rounding up to granules stays in the zone when the last granule does. */
  lemma RoundedFits(size: nat, w: nat, x: nat, g: nat, zrwa: nat)
    requires g > 0 && Mod(w, g) == 0 && Mod(size, g) <= zrwa && w + x + zrwa <= size
    ensures w + DivRoundUp(x, g) * g <= size
  {
    var k, m := DivRoundUp(x, g), Div(w, g);
    assert w == m * g;
    Distribute(m, k, g);
    if k > 0 && m * g + k * g > size {
      var n: nat := m + k - 1;
      Distribute(n, 1, g);
      assert k * g == (k - 1) * g + g;
      DigitsUnique(n, size - n * g, g);
    }
  }

  /** So does a single granule when the write is longer than what follows the last whole granule. */
  lemma OneGranuleFits(size: nat, w: nat, x: nat, g: nat, zrwa: nat)
    requires g > 0 && Mod(w, g) == 0 && 0 < x <= zrwa < Mod(size, g) < x + zrwa && w + x + zrwa <= size
    ensures w + DivRoundUp(x, g) * g <= size
  {
    var m, n := Div(w, g), Div(size, g);
    assert w == m * g && size == n * g + Mod(size, g);
    if m >= n {
      MulMono(n, m, g);
    }
    Distribute(m, 1, g);
    MulMono(m + 1, n, g);
    DigitsUnique(1, x - 1, g);
  }

  lemma FlushInGranules(p: Params, zid: nat, z: Zone, slba: nat, nr: nat)
    requires Consistent(p) && nr > 0 && Start(p, zid) <= z.wp <= slba < End(p, zid) && InOneZone(p, slba, nr)
    requires Aligned(p, nr) && slba + nr - 1 <= Pred64(z.wp + 2 * p.lbasPerZrwa)
    requires GranulesFit(p) && z.zrwav && InGranules(p, zid, z)
    requires slba + nr - 1 >= z.wp + p.lbasPerZrwa ==> p.lbasPerFg > 0
    ensures InGranules(p, zid, z.(wp := z.wp + ImplicitFlush(p, zid, z.wp, slba + nr - 1)))
  {
    hide InOneZone, Aligned;
    StaysInZone(p, zid, slba, nr);
    var elba := slba + nr - 1;
    if elba >= z.wp + p.lbasPerZrwa {
      var w, x := z.wp - Start(p, zid), elba - (z.wp + p.lbasPerZrwa) + 1;
      if Mod(p.zoneLbas, p.lbasPerFg) <= p.lbasPerZrwa {
        RoundedFits(p.zoneLbas, w, x, p.lbasPerFg, p.lbasPerZrwa);
      } else {
        assert !Overshoots(p, nr);
        OneGranuleFits(p.zoneLbas, w, x, p.lbasPerFg, p.lbasPerZrwa);
      }
      MoreGranules(w, DivRoundUp(x, p.lbasPerFg), p.lbasPerFg);
    }
  }

  /** An explicit flush moves the write pointer by whole granules. */
  lemma ExplicitInGranules(p: Params, zid: nat, z: Zone, c: Counters, slba: nat)
    requires Consistent(p) && Start(p, zid) <= z.wp && InGranules(p, zid, z)
    ensures var e := FlushZrwa(p, zid, z, c, slba); Start(p, zid) <= e.zone.wp && InGranules(p, zid, e.zone)
  {
    hide Pred64;
    if z.zrwav && z.wp <= slba <= ZrwaEnd(p, zid, z.wp) && p.lbasPerFg > 0 {
      var n := slba - z.wp + 1;
      if n % p.lbasPerFg == 0 {
        var k := Div(n, p.lbasPerFg);
        assert n == k * p.lbasPerFg;
        MoreGranules(z.wp - Start(p, zid), k, p.lbasPerFg);
      }
    }
  }

  /** No other command moves the write pointer of a zone with ZRWA, except to its start. */
  lemma OthersInGranules(p: Params, cmd: Command, zid: nat, z: Zone, c: Counters)
    requires Consistent(p) && WellFormed(cmd) && ZoneOk(p, zid, z) && !cmd.Flush? && !(cmd.Write? && z.zrwav)
    requires InGranules(p, zid, z)
    ensures var e := ZoneEffect(p, cmd, zid, z, c); Start(p, zid) <= e.zone.wp && InGranules(p, zid, e.zone)
  {
    StartInGranules(p, zid, z.(wp := Start(p, zid), state := Empty));
    hide InOneZone, Aligned, Mod;
  }

  lemma KeepsGranules(p: Params, cmd: Command, zid: nat, z: Zone, c: Counters)
    requires Consistent(p) && WellFormed(cmd) && Addressed(p, cmd, zid) && ZoneOk(p, zid, z)
    requires GranulesFit(p) && InGranules(p, zid, z)
    ensures var e := ZoneEffect(p, cmd, zid, z, c); Start(p, zid) <= e.zone.wp && InGranules(p, zid, e.zone)
  {
    hide WriteZrwa, FlushZrwa, GranulesFit, WritePlain, OpenZone;
    if cmd.Flush? {
      ExplicitInGranules(p, zid, z, c, cmd.flushLba);
    } else if cmd.Write? && z.zrwav {
      WriteInGranules(p, cmd, zid, z, c);
    } else {
      OthersInGranules(p, cmd, zid, z, c);
    }
  }

  lemma StartInGranules(p: Params, zid: nat, z: Zone)
    requires z.wp == Start(p, zid)
    ensures InGranules(p, zid, z)
  {
    if p.lbasPerFg > 0 {
      DigitsUnique(0, 0, p.lbasPerFg);
    }
  }

  lemma WriteInGranules(p: Params, cmd: Command, zid: nat, z: Zone, c: Counters)
    requires Consistent(p) && cmd.Write? && cmd.nr > 0 && Addressed(p, cmd, zid) && Start(p, zid) <= z.wp && z.zrwav
    requires GranulesFit(p) && InGranules(p, zid, z)
    ensures var e := WriteZrwa(p, zid, z, c, cmd.lba, cmd.nr, cmd.flushOk);
      Start(p, zid) <= e.zone.wp && InGranules(p, zid, e.zone)
  {
    var slba := cmd.lba;
    assert slba == zid * p.zoneLbas + slba % p.zoneLbas;
    if z.wp <= slba && InOneZone(p, slba, cmd.nr) && Aligned(p, cmd.nr)
      && slba + cmd.nr - 1 <= Pred64(z.wp + 2 * p.lbasPerZrwa)
      && (slba + cmd.nr - 1 >= z.wp + p.lbasPerZrwa ==> p.lbasPerFg > 0) {
      FlushInGranules(p, zid, z, slba, cmd.nr);
    }
    hide InOneZone, Aligned, ImplicitFlush, Pred64, GranulesFit;
  }

  // ---------- opening with ZRWA ----------

  /** Whether a zone can be opened with ZRWA at all. The totals of both configured devices allow it, although
      they have no ZRWA. */
  predicate CanOpenZrwa(p: Params) {
    p.nrZones > 0 && p.maxActive > 0 && p.maxOpen > 0 && p.maxZrwa > 0
  }

  /** A zone only ever gets a ZRWA when the totals allow it. */
  lemma ZrwaNeedsTotals(p: Params, cmd: Command, zid: nat, z: Zone, c: Counters)
    requires Consistent(p) && WellFormed(cmd) && !z.zrwav && WithinLimits(p, c)
    requires c.active >= 0 && c.open >= 0 && c.zrwa >= 0 && !CanOpenZrwa(p) && p.nrZones > 0
    ensures !ZoneEffect(p, cmd, zid, z, c).zone.zrwav
  {
    hide InOneZone, Aligned;
  }

  /** A division by zero needs a zone with ZRWA and a device without a flush granule. */
  lemma FaultNeedsZrwa(p: Params, cmd: Command, zid: nat, z: Zone, c: Counters)
    requires Consistent(p) && WellFormed(cmd)
    ensures ZoneEffect(p, cmd, zid, z, c).status == DivideError ==> z.zrwav && p.lbasPerFg == 0
  {
    hide InOneZone, Aligned, ImplicitFlush, ZrwaEnd;
  }
}
