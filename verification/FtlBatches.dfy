/** Runs of page writes by their effect on the occupancy: what a batch of writes to one line and the refill after it
    do. */
module FtlBatches {
  import opened Wrappers
  import opened Arith
  import opened Counting
  import opened NandArray
  import opened FtlModel
  import opened FtlSteps
  import opened FtlGc
  import opened FtlRuns
  import opened FtlTight
  import opened FtlOccupancy

  // ---------- batches of writes ----------

  lemma SpreadTwice(on: seq<set<nat>>, l: nat, a: set<nat>, b: set<nat>)
    ensures Spread(on, l, {}) == on
    ensures Spread(Spread(on, l, a), l, b) == Spread(on, l, a + b)
  {
    forall k | 0 <= k < |on|
      ensures Spread(on, l, {})[k] == on[k]
      ensures Spread(Spread(on, l, a), l, b)[k] == Spread(on, l, a + b)[k]
    {
    }
  }

  /** One page more. */
  lemma BatchNext(o: Occupancy, io: IoType, pages: set<nat>, n: nat, x: nat)
    requires o.Fits(io, n + 1)
    ensures o.Batch(io, pages, n).Put(io, x) == o.Batch(io, pages + {x}, n + 1)
  {
    SpreadTwice(o.on, o.Pointer(io).line, pages, {x});
  }

  lemma EmptyBatch(o: Occupancy, io: IoType)
    requires o.Fits(io, 0)
    ensures o.Batch(io, {}, 0) == o
  {
    SpreadTwice(o.on, o.Pointer(io).line, {}, {});
  }

  lemma LastElement(xs: seq<nat>)
    requires xs != []
    ensures Elements(xs) == Elements(xs[..|xs| - 1]) + {xs[|xs| - 1]}
  {
    assert xs == xs[..|xs| - 1] + [xs[|xs| - 1]];
  }

  /** Writes to one line, one after the other. */
  lemma {:induction false} PutsBatch(o: Occupancy, io: IoType, xs: seq<nat>)
    requires o.Fits(io, |xs|)
    ensures o.Puts(io, xs) == o.Batch(io, Elements(xs), |xs|)
  {
    hide Occupancy.Batch, Occupancy.Put;
    if xs == [] {
      assert Elements(xs) == {};
      EmptyBatch(o, io);
    } else {
      var k := |xs| - 1;
      LastElement(xs);
      hide Elements;
      PutsBatch(o, io, xs[..k]);
      BatchNext(o, io, Elements(xs[..k]), k, xs[k]);
    }
  }

  lemma {:induction false} PutsConcat(o: Occupancy, io: IoType, xs: seq<nat>, ys: seq<nat>)
    ensures o.Puts(io, xs + ys) == o.Puts(io, xs).Puts(io, ys)
  {
    if ys == [] {
      assert xs + ys == xs;
    } else {
      var k := |ys| - 1;
      PutsConcat(o, io, xs, ys[..k]);
      assert (xs + ys)[..|xs| + k] == xs + ys[..k];
    }
  }

  // ---------- one page write ----------

  /** A state of a run and its occupancy, before a write for which the host's write pointer has room. */
  ghost predicate Before(d: Device, s: Ftl, w: Write) {
    Ok(d) && Going(s) && Sized(d, s) && w.lpn < d.pages && Occ(s).Can(UserIo)
  }

  lemma WrittenOcc(d: Device, s: Ftl, w: Write)
    requires Before(d, s, w)
    ensures Core(s, -1, {}, -1) && Room(s, UserIo) >= 2
    ensures var u := HostWrite(s, w.lpn, w.v);
      && Core(u, -1, {}, -1) && Occ(u) == Occ(s).Put(UserIo, w.lpn) && |u.status| == d.lines && u.perLine == d.perLine
      && u.credits == s.credits - 1
  {
    RevealPointers(s);
    RoomMeansFreeLine(s, UserIo);
    hide Core, Room, HostWrite, Ok;
    HostWriteOcc(s, w.lpn, w.v);
  }

  /** Credits are left. */
  lemma Spends(d: Device, k: nat, s: Ftl, w: Write)
    requires Before(d, s, w) && s.credits > 1
    ensures PageWrite(d, k, s, w).Some? && Occ(PageWrite(d, k, s, w).value) == Occ(s).Put(UserIo, w.lpn)
  {
    WrittenOcc(d, s, w);
    hide Core, Room, HostWrite, ScansLine, ChoosesVictim, Occ, Gc;
  }

  /** The credits are used up, and no line is collected. */
  lemma Rests(d: Device, k: nat, s: Ftl, w: Write)
    requires Before(d, s, w) && s.credits == 1
    requires var p := Occ(s).Put(UserIo, w.lpn); |p.free| > GC_THRES_LINES || forall v :: !p.Victim(v)
    ensures var p := Occ(s).Put(UserIo, w.lpn);
      PageWrite(d, k, s, w).Some? && Occ(PageWrite(d, k, s, w).value) == p.(credits := p.refill)
  {
    WrittenOcc(d, s, w);
    var u := HostWrite(s, w.lpn, w.v);
    var p := Occ(u);
    hide Core, Room, HostWrite, ScansLine, ChoosesVictim, Gc, Occupancy.Put, Occupancy.Victim;
    if |p.free| <= GC_THRES_LINES {
      NoVictims(u);
      NoVictimFits(u);
    }
    GrantOcc(u);
  }

  lemma NoVictims(u: Ftl)
    requires Core(u, -1, {}, -1) && forall v :: !Occ(u).Victim(v)
    ensures u.victims == {}
  {
    forall v | v in u.victims
      ensures false
    {
      VictimOcc(u, v);
    }
  }

  lemma GrantOcc(u: Ftl)
    ensures Occ(u.(credits := u.credits + u.refill)) == Occ(u).(credits := u.credits + u.refill)
  {
    var t := u.(credits := u.credits + u.refill);
    assert forall l :: On(t, l) == On(u, l);
    assert Occ(t).on == Occ(u).on;
  }

  /** The credits are used up, and GC collects a line. */
  lemma Collects(d: Device, k: nat, s: Ftl, w: Write, v: nat) returns (xs: seq<nat>)
    requires Before(d, s, w) && s.credits == 1
    requires var p := Occ(s).Put(UserIo, w.lpn);
      |p.free| <= GC_THRES_LINES && p.Least(v) && (p.gc.next + |p.on[v]| < d.perLine || p.free != [])
    ensures var p := Occ(s).Put(UserIo, w.lpn);
      && NoDup(xs) && Elements(xs) == p.on[v]
      && PageWrite(d, k, s, w).Some?
      && Occ(PageWrite(d, k, s, w).value) == p.Collect(v, xs).(credits := d.perLine - |p.on[v]|)
  {
    hide Core, Room, HostWrite, ChoosesVictim, ScansLine, Replenish, Going, GcFits,
         Occupancy.Put, Occupancy.Least, Occupancy.Collect;
    WrittenOcc(d, s, w);
    var u := HostWrite(s, w.lpn, w.v);
    Chosen(d, k, u);
    xs := CollectOcc(u, v, d.choose(k, u), d.order);
  }

  lemma CollectOcc(u: Ftl, v: nat, taken: nat, order: seq<nat>) returns (xs: seq<nat>)
    requires Core(u, -1, {}, -1) && u.credits == 0 && ScansLine(order, u.perLine) && MayTake(u, taken)
    requires var p := Occ(u);
      |p.free| <= GC_THRES_LINES && p.Least(v) && (p.gc.next + |p.on[v]| < u.perLine || p.free != [])
    ensures GcFits(u) && NoDup(xs) && v < |u.status| && Elements(xs) == Occ(u).on[v]
    ensures Occ(Replenish(u, taken, order)) == Occ(u).Collect(v, xs).(credits := u.perLine - |Occ(u).on[v]|)
  {
    hide Core, Room, Gc, HasRoom, ScansLine, IsVictim, Occupancy.Collect, Occupancy.Least, Occupancy.Puts;
    OnlyVictim(u, v);
    RoomForVictim(u, v);
    xs := GcOcc(u, v, order);
    CollectSizes(Occ(u), v, xs);
    GrantOcc(Gc(u, v, order));
  }

  lemma OnlyVictim(u: Ftl, v: nat)
    requires Core(u, -1, {}, -1) && Occ(u).Least(v)
    ensures v in u.victims && v < |u.status| && forall x: nat :: IsVictim(u, x) <==> x == v
  {
    VictimOcc(u, v);
    OnSize(u, v);
    forall x | x in u.victims && x < |u.vpc|
      ensures x == v || u.vpc[v] < u.vpc[x]
    {
      InLists(u, x);
      VictimOcc(u, x);
      OnSize(u, x);
    }
    InLists(u, v);
  }

  lemma InLists(u: Ftl, x: nat)
    requires Core(u, -1, {}, -1) && x in u.victims
    ensures x < |u.status| == |u.vpc|
  {
  }

  lemma RoomForVictim(u: Ftl, v: nat)
    requires Core(u, -1, {}, -1) && v in u.victims && v < |u.status|
    ensures u.gc.next + |On(u, v)| < u.perLine || u.freeLines != [] <==> HasRoom(u, v)
  {
    OnSize(u, v);
    SelectCore(u, v);
    RevealPointers(u);
    var n := |u.freeLines|;
    if n > 0 {
      MulMono(1, n, u.perLine);
    }
  }

  lemma CollectSizes(o: Occupancy, v: nat, xs: seq<nat>)
    requires v < |o.on|
    ensures o.Collect(v, xs).credits == o.credits && o.Collect(v, xs).refill == o.perLine - |o.on[v]|
  {
    PutsSizes(o.(refill := o.perLine - |o.on[v]|), GcIo, xs);
  }

  /** The credits are used up, and GC finds no free line behind the one it fills. */
  lemma Exhausts(d: Device, k: nat, s: Ftl, w: Write, v: nat)
    requires Before(d, s, w) && s.credits == 1
    requires var p := Occ(s).Put(UserIo, w.lpn);
      p.free == [] && p.Victim(v) && forall u: nat :: p.Victim(u) ==> p.gc.next + |p.on[u]| >= d.perLine
    ensures PageWrite(d, k, s, w) == None
  {
    WrittenOcc(d, s, w);
    var u := HostWrite(s, w.lpn, w.v);
    hide Core, Room, HostWrite, ChoosesVictim, Occupancy.Put, Occupancy.Victim, HasRoom, ScansLine, IsVictim;
    VictimOcc(u, v);
    var x := d.choose(k, u);
    Chosen(d, k, u);
    TakenVictim(u, x);
    RoomForVictim(u, x);
  }

  lemma TakenVictim(u: Ftl, x: nat)
    requires Core(u, -1, {}, -1) && IsVictim(u, x)
    ensures x in u.victims && x < |u.status| && Occ(u).Victim(x) && Occ(u).on[x] == On(u, x)
  {
    InLists(u, x);
    VictimOcc(u, x);
  }

  // ---------- runs ----------

  /** A run over the first `n` logical pages. */
  ghost predicate Over(d: Device, n: nat, writes: seq<Write>) {
    WritesTo(writes, Upto(n)) && WritesTo(writes, Upto(d.pages))
  }

  ghost predicate Comes(d: Device, n: nat, o: Occupancy, writes: seq<Write>) {
    Ok(d) && Over(d, n, writes) && Run(d, writes).Some? && Occ(Run(d, writes).value) == o
  }

  /** Some run over the first `n` logical pages comes to this occupancy. */
  ghost predicate Reachable(d: Device, n: nat, o: Occupancy) {
    exists writes :: Comes(d, n, o, writes)
  }

  /** Some run over the first `n` logical pages takes a line from the empty free list. */
  ghost predicate Fails(d: Device, n: nat)
    requires Ok(d)
  {
    exists writes :: Over(d, n, writes) && Run(d, writes) == None
  }

  /** A run to the occupancy `o`, one write longer. */
  lemma Longer(d: Device, n: nat, o: Occupancy, x: nat) returns (writes: seq<Write>, s: Ftl)
    requires Reachable(d, n, o) && x < n <= d.pages && o.Can(UserIo)
    ensures Ok(d) && Over(d, n, writes) && Over(d, n, writes + [Write(x, 0)])
    ensures Before(d, s, Write(x, 0)) && Occ(s) == o && s.credits == o.credits && d.perLine == o.perLine
    ensures Run(d, writes + [Write(x, 0)]) == PageWrite(d, |writes|, s, Write(x, 0))
  {
    hide Ok, Run, PageWrite, Going, Upto, Occupancy.Can;
    writes :| Comes(d, n, o, writes);
    s := Run(d, writes).value;
    RunNext(d, writes, Write(x, 0));
  }

  lemma Spend(d: Device, n: nat, o: Occupancy, x: nat)
    requires Reachable(d, n, o) && x < n <= d.pages && o.Can(UserIo) && o.credits > 1
    ensures Reachable(d, n, o.Put(UserIo, x))
  {
    hide Ok, Run, PageWrite, Before, Over, Occupancy.Put, Occ, Occupancy.Can;
    var writes, s := Longer(d, n, o, x);
    Spends(d, |writes|, s, Write(x, 0));
    assert Comes(d, n, o.Put(UserIo, x), writes + [Write(x, 0)]);
  }

  ghost predicate Pages(n: nat, xs: seq<nat>) {
    forall i :: 0 <= i < |xs| ==> xs[i] < n
  }

  /** A batch of writes that leaves credits. */
  lemma {:induction false} SpendAll(d: Device, n: nat, o: Occupancy, xs: seq<nat>)
    requires Reachable(d, n, o) && Pages(n, xs) && n <= d.pages && o.credits > |xs| && o.Fits(UserIo, |xs|)
    ensures Reachable(d, n, o.Batch(UserIo, Elements(xs), |xs|))
  {
    hide Reachable, Occupancy.Put;
    PutsBatch(o, UserIo, xs);
    if xs != [] {
      var k := |xs| - 1;
      var rest := xs[..k];
      SpendAll(d, n, o, rest);
      PutsBatch(o, UserIo, rest);
      Spend(d, n, o.Puts(UserIo, rest), xs[k]);
    }
  }

  /** All but the last write of a batch that uses up the credits. */
  lemma AllButLast(d: Device, n: nat, o: Occupancy, xs: seq<nat>) returns (q: Occupancy, x: nat)
    requires Reachable(d, n, o) && Pages(n, xs) && n <= d.pages && o.credits == |xs| > 0 && o.Fits(UserIo, |xs|)
    ensures Reachable(d, n, q) && x < n && q.Can(UserIo) && q.credits == 1 && q.perLine == o.perLine
    ensures q.Put(UserIo, x) == o.Batch(UserIo, Elements(xs), |xs|)
  {
    hide Reachable, Occupancy.Put, Elements;
    var k := |xs| - 1;
    var rest := xs[..k];
    x := xs[k];
    PutsBatch(o, UserIo, xs);
    SpendAll(d, n, o, rest);
    PutsBatch(o, UserIo, rest);
    q := o.Puts(UserIo, rest);
  }

  /** A batch that uses up the credits when no line is collected. */
  lemma Rest(d: Device, n: nat, o: Occupancy, xs: seq<nat>, p: Occupancy)
    requires Reachable(d, n, o) && Pages(n, xs) && n <= d.pages && o.credits == |xs| > 0 && o.Fits(UserIo, |xs|)
    requires p == o.Batch(UserIo, Elements(xs), |xs|)
    requires |p.free| > GC_THRES_LINES || forall v: nat :: !p.Victim(v)
    ensures Reachable(d, n, p.(credits := p.refill))
  {
    hide Ok, Run, PageWrite, Before, Over, Occupancy.Put, Occ, Occupancy.Can, Occupancy.Batch, Occupancy.Fits,
         Occupancy.Victim, Pages;
    var q, x := AllButLast(d, n, o, xs);
    var writes, s := Longer(d, n, q, x);
    Rests(d, |writes|, s, Write(x, 0));
    assert Comes(d, n, p.(credits := p.refill), writes + [Write(x, 0)]);
  }

  /** A batch that uses up the credits when line `v` is collected. */
  lemma Clean(d: Device, n: nat, o: Occupancy, xs: seq<nat>, p: Occupancy, v: nat) returns (moved: seq<nat>)
    requires Reachable(d, n, o) && Pages(n, xs) && n <= d.pages && o.credits == |xs| > 0 && o.Fits(UserIo, |xs|)
    requires p == o.Batch(UserIo, Elements(xs), |xs|)
    requires |p.free| <= GC_THRES_LINES && p.Least(v) && (p.gc.next + |p.on[v]| < o.perLine || p.free != [])
    ensures NoDup(moved) && Elements(moved) == p.on[v]
    ensures Reachable(d, n, p.Collect(v, moved).(credits := o.perLine - |p.on[v]|))
  {
    hide Ok, Run, PageWrite, Before, Over, Occupancy.Put, Occ, Occupancy.Can, Occupancy.Batch, Occupancy.Fits,
         Occupancy.Collect, Pages;
    var q, x := AllButLast(d, n, o, xs);
    var writes, s := Longer(d, n, q, x);
    moved := Collects(d, |writes|, s, Write(x, 0), v);
    assert Comes(d, n, p.Collect(v, moved).(credits := o.perLine - |p.on[v]|), writes + [Write(x, 0)]);
  }

  /** A batch that uses up the credits when GC cannot go on. */
  lemma Exhaust(d: Device, n: nat, o: Occupancy, xs: seq<nat>, p: Occupancy, v: nat)
    requires Reachable(d, n, o) && Pages(n, xs) && n <= d.pages && o.credits == |xs| > 0 && o.Fits(UserIo, |xs|)
    requires p == o.Batch(UserIo, Elements(xs), |xs|)
    requires p.free == [] && p.Victim(v) && forall u: nat :: p.Victim(u) ==> p.gc.next + |p.on[u]| >= o.perLine
    ensures Ok(d) && Fails(d, n)
  {
    hide Ok, Run, PageWrite, Before, Over, Occupancy.Put, Occ, Occupancy.Can, Occupancy.Batch, Occupancy.Fits,
         Occupancy.Victim, Pages;
    var q, x := AllButLast(d, n, o, xs);
    var writes, s := Longer(d, n, q, x);
    Exhausts(d, |writes|, s, Write(x, 0), v);
    assert Over(d, n, writes + [Write(x, 0)]);
  }

  // ---------- what GC does to the occupancy ----------

  /** GC moves all pages of the victim to the line it is writing to. */
  lemma CollectWithin(p: Occupancy, v: nat, moved: seq<nat>)
    requires v < |p.on| && NoDup(moved) && Elements(moved) == p.on[v] && p.gc.next + |p.on[v]| < p.perLine
    ensures p.Collect(v, moved) ==
            p.(on := Spread(p.on, p.gc.line, p.on[v]), gc := WritePointer(p.gc.line, p.gc.next + |p.on[v]|),
               refill := p.perLine - |p.on[v]|, free := p.free + [v])
  {
    NoDupSize(moved);
    PutsBatch(p.(refill := p.perLine - |p.on[v]|), GcIo, moved);
  }

  /** The first page that GC moves is the last one of its line, and the others go to a free line. */
  lemma CollectAcross(p: Occupancy, v: nat, moved: seq<nat>) returns (first: nat)
    requires v < |p.on| && NoDup(moved) && Elements(moved) == p.on[v]
    requires 0 < |p.on[v]| <= p.perLine && p.gc.next + 1 == p.perLine && p.free != []
    ensures first in p.on[v]
    ensures p.Collect(v, moved) ==
            p.(on := Spread(Spread(p.on, p.gc.line, {first}), p.free[0], p.on[v] - {first}),
               gc := WritePointer(p.free[0], |p.on[v]| - 1),
               refill := p.perLine - |p.on[v]|, free := p.free[1..] + [v])
  {
    NoDupSize(moved);
    first := moved[0];
    var rest := moved[1..];
    assert moved == [first] + rest && Elements([first]) == {first};
    assert Elements(rest) == p.on[v] - {first};
    var o := p.(refill := p.perLine - |p.on[v]|);
    PutsConcat(o, GcIo, [first], rest);
    PutsBatch(o, GcIo, [first]);
    PutsBatch(o.Puts(GcIo, [first]), GcIo, rest);
  }
}
