/** A run on five lines, while all other lines stay full: its states as boards that name what each of the five lines
    holds, and what a batch of writes with the refill after it makes of a board. */
module FtlBoard {
  import opened Counting
  import opened FtlModel
  import opened FtlRuns
  import opened FtlOccupancy
  import opened FtlBatches

  /** The pages lo, lo + 1, ..., hi - 1. */
  ghost function Span(lo: nat, hi: nat): (p: set<nat>)
    ensures forall x :: x in p <==> lo <= x < hi
    ensures lo <= hi ==> |p| == hi - lo
  {
    if hi <= lo then {} else Span(lo, hi - 1) + {hi - 1}
  }

  ghost function Count(lo: nat, k: nat): (xs: seq<nat>)
    ensures |xs| == k && Elements(xs) == Span(lo, lo + k)
    ensures forall i :: 0 <= i < k ==> xs[i] == lo + i
  {
    if k == 0 then []
    else Count(lo, k - 1) + [lo + k - 1]
  }

  ghost function Repeat(x: nat, k: nat): (xs: seq<nat>)
    ensures |xs| == k && forall i :: 0 <= i < k ==> xs[i] == x
    ensures Elements(xs) == if k == 0 then {} else {x}
  {
    if k == 0 then [] else Repeat(x, k - 1) + [x]
  }

  lemma ElementsConcat(xs: seq<nat>, ys: seq<nat>)
    ensures Elements(xs + ys) == Elements(xs) + Elements(ys)
    ensures forall x: nat :: Elements([x]) == {x}
  {
    forall x
      ensures x in Elements(xs + ys) <==> x in Elements(xs) + Elements(ys)
    {
      assert x in xs + ys <==> x in xs || x in ys;
    }
  }

  /** The five lines that the run works with. */
  datatype Lines = Lines(a: nat, b: nat, c: nat, d: nat, e: nat)

  /** The pages on them. */
  datatype Held = Held(a: set<nat>, b: set<nat>, c: set<nat>, d: set<nat>, e: set<nat>)

  ghost predicate Five(z: Lines, k: nat) {
    && z.a < k && z.b < k && z.c < k && z.d < k && z.e < k
    && z.a != z.b && z.a != z.c && z.a != z.d && z.a != z.e && z.b != z.c && z.b != z.d && z.b != z.e
    && z.c != z.d && z.c != z.e && z.d != z.e
  }

  predicate OneOf(z: Lines, l: nat) {
    l == z.a || l == z.b || l == z.c || l == z.d || l == z.e
  }

  /** All other lines are full of pages below `base`. */
  ghost predicate Static(on: seq<set<nat>>, z: Lines, base: nat, perLine: nat) {
    forall l :: 0 <= l < |on| && !OneOf(z, l) ==> |on[l]| == perLine && on[l] <= Upto(base)
  }

  ghost predicate Has(on: seq<set<nat>>, z: Lines, h: Held) {
    && Five(z, |on|)
    && on[z.a] == h.a && on[z.b] == h.b && on[z.c] == h.c && on[z.d] == h.d && on[z.e] == h.e
  }

  /** The pages of `x` move to line `l`. */
  ghost function To(z: Lines, h: Held, l: nat, x: set<nat>): Held {
    Held(if l == z.a then h.a + x else h.a - x,
         if l == z.b then h.b + x else h.b - x,
         if l == z.c then h.c + x else h.c - x,
         if l == z.d then h.d + x else h.d - x,
         if l == z.e then h.e + x else h.e - x)
  }

  lemma SpreadHas(on: seq<set<nat>>, z: Lines, h: Held, base: nat, perLine: nat, l: nat, x: set<nat>)
    requires Has(on, z, h) && Static(on, z, base, perLine) && OneOf(z, l) && forall y :: y in x ==> y >= base
    ensures Has(Spread(on, l, x), z, To(z, h, l, x)) && Static(Spread(on, l, x), z, base, perLine)
  {
    forall k | 0 <= k < |on| && !OneOf(z, k)
      ensures Spread(on, l, x)[k] == on[k]
    {
      assert on[k] - x == on[k];
    }
  }

  /** What a state of the run looks like: the write pointers, the free list, the credits and the pages on the five
      lines. */
  datatype Board = Board(user: WritePointer, gc: WritePointer, free: seq<nat>, credits: int, refill: int, h: Held)

  ghost predicate Shows(o: Occupancy, z: Lines, base: nat, b: Board) {
    && o.user == b.user && o.gc == b.gc && o.free == b.free && o.credits == b.credits && o.refill == b.refill
    && OneOf(z, b.user.line) && OneOf(z, b.gc.line) && (forall l :: l in b.free ==> OneOf(z, l))
    && Has(o.on, z, b.h) && Static(o.on, z, base, o.perLine)
  }

  /** The pages of the run: those below `base` stay where they are, the others are written again and again. */
  datatype Setup = Setup(d: Device, n: nat, base: nat, z: Lines)

  ghost predicate Fine(e: Setup) {
    e.n == e.base + e.d.perLine + 1 <= e.d.pages && e.d.perLine >= 5
  }

  /** Some run comes to such a state. */
  ghost predicate Attained(e: Setup, b: Board) {
    exists o :: Reachable(e.d, e.n, o) && o.perLine == e.d.perLine && Shows(o, e.z, e.base, b)
  }

  ghost function HeldBy(z: Lines, h: Held, l: nat): set<nat>
    requires OneOf(z, l)
  {
    if l == z.a then h.a else if l == z.b then h.b else if l == z.c then h.c else if l == z.d then h.d else h.e
  }

  predicate ClosedIn(e: Setup, b: Board, l: nat) {
    OneOf(e.z, l) && l != b.user.line && l != b.gc.line && l !in b.free
  }

  /** A batch of host writes. */
  ghost function Wrote(e: Setup, b: Board, pages: set<nat>, count: nat): Board {
    var p := b.(h := To(e.z, b.h, b.user.line, pages), credits := b.credits - count);
    if b.user.next + count != e.d.perLine then p.(user := WritePointer(b.user.line, b.user.next + count))
    else if b.free != [] then p.(user := WritePointer(b.free[0], 0), free := b.free[1..])
    else p
  }

  /** GC of line `v` within the line that GC writes to. */
  ghost function Cleaned(e: Setup, b: Board, v: nat): Board
    requires OneOf(e.z, v)
  {
    var x := HeldBy(e.z, b.h, v);
    Board(b.user, WritePointer(b.gc.line, b.gc.next + |x|), b.free + [v], e.d.perLine - |x|, e.d.perLine - |x|,
          To(e.z, b.h, b.gc.line, x))
  }

  /** GC of line `v` whose first moved page is the last one of the line that GC writes to. */
  ghost function CleanedAcross(e: Setup, b: Board, v: nat, first: nat): Board
    requires OneOf(e.z, v) && b.free != [] && HeldBy(e.z, b.h, v) != {}
  {
    var x := HeldBy(e.z, b.h, v);
    Board(b.user, WritePointer(b.free[0], |x| - 1), b.free[1..] + [v], e.d.perLine - |x|, e.d.perLine - |x|,
          To(e.z, To(e.z, b.h, b.gc.line, {first}), b.free[0], x - {first}))
  }

  ghost predicate LeastIn(e: Setup, b: Board, v: nat) {
    && ClosedIn(e, b, v) && |HeldBy(e.z, b.h, v)| < e.d.perLine
    && forall u: nat :: u != v && ClosedIn(e, b, u) ==> |HeldBy(e.z, b.h, v)| < |HeldBy(e.z, b.h, u)|
  }

  lemma ClosedShows(e: Setup, o: Occupancy, b: Board, l: nat)
    requires Shows(o, e.z, e.base, b) && o.Closed(l)
    ensures OneOf(e.z, l) ==> ClosedIn(e, b, l) && o.on[l] == HeldBy(e.z, b.h, l)
    ensures !OneOf(e.z, l) ==> |o.on[l]| == o.perLine
  {
  }

  lemma LeastShows(e: Setup, o: Occupancy, b: Board, v: nat)
    requires Shows(o, e.z, e.base, b) && o.perLine == e.d.perLine && LeastIn(e, b, v)
    ensures o.Least(v) && o.on[v] == HeldBy(e.z, b.h, v)
  {
    assert o.Victim(v);
    assert o.on[v] == HeldBy(e.z, b.h, v);
    forall u: nat | u != v && o.Victim(u)
      ensures |o.on[v]| < |o.on[u]|
    {
      ClosedShows(e, o, b, u);
    }
  }

  lemma WroteShows(e: Setup, o: Occupancy, b: Board, pages: set<nat>, count: nat)
    requires Shows(o, e.z, e.base, b) && o.perLine == e.d.perLine && o.Fits(UserIo, count)
    requires forall y :: y in pages ==> y >= e.base
    ensures Shows(o.Batch(UserIo, pages, count), e.z, e.base, Wrote(e, b, pages, count))
  {
    hide Has, Static, To;
    SpreadHas(o.on, e.z, b.h, e.base, o.perLine, b.user.line, pages);
  }

  ghost predicate FitsIn(e: Setup, b: Board, count: nat) {
    || b.user.next + count < e.d.perLine
    || (b.user.next + count == e.d.perLine && count > 0 && b.free != [])
  }

  /** Pages of the run that are written again. */
  ghost predicate Moving(e: Setup, xs: seq<nat>) {
    forall i :: 0 <= i < |xs| ==> e.base <= xs[i] < e.n
  }

  /** A batch that leaves credits. */
  lemma Spending(e: Setup, b: Board, xs: seq<nat>)
    requires Fine(e) && Attained(e, b) && Moving(e, xs) && b.credits > |xs| && FitsIn(e, b, |xs|)
    ensures Attained(e, Wrote(e, b, Elements(xs), |xs|))
  {
    hide Reachable, Wrote, Occupancy.Batch, Has, Static;
    var o :| Reachable(e.d, e.n, o) && o.perLine == e.d.perLine && Shows(o, e.z, e.base, b);
    SpendAll(e.d, e.n, o, xs);
    WroteShows(e, o, b, Elements(xs), |xs|);
    BatchSize(o, Elements(xs), |xs|);
  }

  lemma BatchSize(o: Occupancy, pages: set<nat>, count: nat)
    ensures o.Batch(UserIo, pages, count).perLine == o.perLine
  {
  }

  ghost predicate Quiet(e: Setup, b: Board) {
    |b.free| > 2 || forall u: nat :: ClosedIn(e, b, u) ==> |HeldBy(e.z, b.h, u)| == e.d.perLine
  }

  /** A batch that uses up the credits while no line can be collected. */
  lemma Resting(e: Setup, b: Board, xs: seq<nat>, t: Board)
    requires Fine(e) && Attained(e, b) && Moving(e, xs) && b.credits == |xs| > 0 && FitsIn(e, b, |xs|)
    requires t == Wrote(e, b, Elements(xs), |xs|) && Quiet(e, t)
    ensures Attained(e, t.(credits := t.refill))
  {
    hide Reachable, Wrote, Occupancy.Batch, Has, Static;
    var o :| Reachable(e.d, e.n, o) && o.perLine == e.d.perLine && Shows(o, e.z, e.base, b);
    var p := o.Batch(UserIo, Elements(xs), |xs|);
    WroteShows(e, o, b, Elements(xs), |xs|);
    BatchSize(o, Elements(xs), |xs|);
    if |p.free| <= 2 {
      forall v: nat
        ensures !p.Victim(v)
      {
        if p.Victim(v) {
          ClosedShows(e, p, t, v);
        }
      }
    }
    Rest(e.d, e.n, o, xs, p);
    assert Shows(p.(credits := p.refill), e.z, e.base, t.(credits := t.refill));
  }

  /** A batch that uses up the credits when line `v` is collected: the occupancy before the GC, and the order in which
      it moves the pages. */
  lemma Collecting(e: Setup, b: Board, xs: seq<nat>, t: Board, v: nat) returns (p: Occupancy, moved: seq<nat>)
    requires Fine(e) && Attained(e, b) && Moving(e, xs) && b.credits == |xs| > 0 && FitsIn(e, b, |xs|)
    requires t == Wrote(e, b, Elements(xs), |xs|) && |t.free| <= 2 && LeastIn(e, t, v)
    requires t.gc.next + |HeldBy(e.z, t.h, v)| < e.d.perLine || t.free != []
    ensures ReadyToCollect(e, t, v, p, moved)
    ensures Reachable(e.d, e.n, p.Collect(v, moved).(credits := e.d.perLine - |p.on[v]|))
  {
    hide Reachable, Wrote, Occupancy.Batch, Has, Static, Occupancy.Collect, Occupancy.Least, LeastIn, To;
    var o :| Reachable(e.d, e.n, o) && o.perLine == e.d.perLine && Shows(o, e.z, e.base, b);
    p := o.Batch(UserIo, Elements(xs), |xs|);
    WroteShows(e, o, b, Elements(xs), |xs|);
    BatchSize(o, Elements(xs), |xs|);
    LeastShows(e, p, t, v);
    moved := Clean(e.d, e.n, o, xs, p, v);
    InOn(e, p, t, v);
    LeastSize(e, t, v);
  }

  lemma InOn(e: Setup, p: Occupancy, t: Board, v: nat)
    requires p.Least(v) && LeastIn(e, t, v)
    ensures v < |p.on| && OneOf(e.z, v)
  {
  }

  ghost predicate ReadyToCollect(e: Setup, t: Board, v: nat, p: Occupancy, moved: seq<nat>) {
    && Shows(p, e.z, e.base, t) && p.perLine == e.d.perLine
    && v < |p.on| && OneOf(e.z, v) && p.on[v] == HeldBy(e.z, t.h, v) && |p.on[v]| < p.perLine
    && NoDup(moved) && Elements(moved) == p.on[v]
  }

  /** GC within its line. */
  lemma Cleaning(e: Setup, b: Board, xs: seq<nat>, t: Board, v: nat)
    requires Fine(e) && Attained(e, b) && Moving(e, xs) && b.credits == |xs| > 0 && FitsIn(e, b, |xs|)
    requires t == Wrote(e, b, Elements(xs), |xs|) && |t.free| <= 2 && LeastIn(e, t, v)
    requires t.gc.next + |HeldBy(e.z, t.h, v)| < e.d.perLine
    requires forall y :: y in HeldBy(e.z, t.h, v) ==> y >= e.base
    ensures Attained(e, Cleaned(e, t, v))
  {
    hide Reachable, Wrote, LeastIn, To, Occupancy.Collect, HeldBy, Attained, FitsIn, Shows;
    var p, moved := Collecting(e, b, xs, t, v);
    CleanedShows(e, t, v, p, moved);
    Attains(e, p.Collect(v, moved).(credits := e.d.perLine - |p.on[v]|), Cleaned(e, t, v));
  }

  lemma Attains(e: Setup, o: Occupancy, b: Board)
    requires Reachable(e.d, e.n, o) && o.perLine == e.d.perLine && Shows(o, e.z, e.base, b)
    ensures Attained(e, b)
  {
    hide Reachable, Shows;
  }

  lemma CleanedShows(e: Setup, t: Board, v: nat, p: Occupancy, moved: seq<nat>)
    requires ReadyToCollect(e, t, v, p, moved) && t.gc.next + |p.on[v]| < p.perLine
    requires forall y :: y in p.on[v] ==> y >= e.base
    ensures var q := p.Collect(v, moved).(credits := e.d.perLine - |p.on[v]|);
      q.perLine == e.d.perLine && Shows(q, e.z, e.base, Cleaned(e, t, v))
  {
    hide Has, Static, Occupancy.Collect, To;
    CollectWithin(p, v, moved);
    SpreadHas(p.on, e.z, t.h, e.base, p.perLine, t.gc.line, p.on[v]);
  }

  /** GC whose first moved page is the last one of the line that GC writes to. Which page that is depends on the scan
      order. */
  lemma CleaningAcross(e: Setup, b: Board, xs: seq<nat>, t: Board, v: nat) returns (first: nat)
    requires Fine(e) && Attained(e, b) && Moving(e, xs) && b.credits == |xs| > 0 && FitsIn(e, b, |xs|)
    requires t == Wrote(e, b, Elements(xs), |xs|) && 0 < |t.free| <= 2 && LeastIn(e, t, v)
    requires t.gc.next + 1 == e.d.perLine && HeldBy(e.z, t.h, v) != {}
    requires forall y :: y in HeldBy(e.z, t.h, v) ==> y >= e.base
    ensures first in HeldBy(e.z, t.h, v) && Attained(e, CleanedAcross(e, t, v, first))
  {
    hide Reachable, Wrote, LeastIn, To, Occupancy.Collect, HeldBy, Attained, FitsIn, Shows;
    var p, moved := Collecting(e, b, xs, t, v);
    first := AcrossShows(e, t, v, p, moved);
    Attains(e, p.Collect(v, moved).(credits := e.d.perLine - |p.on[v]|), CleanedAcross(e, t, v, first));
  }

  lemma AcrossShows(e: Setup, t: Board, v: nat, p: Occupancy, moved: seq<nat>) returns (first: nat)
    requires ReadyToCollect(e, t, v, p, moved) && t.gc.next + 1 == p.perLine && p.on[v] != {} && t.free != []
    requires forall y :: y in p.on[v] ==> y >= e.base
    ensures first in p.on[v] && HeldBy(e.z, t.h, v) != {} && first in HeldBy(e.z, t.h, v)
    ensures var q := p.Collect(v, moved).(credits := e.d.perLine - |p.on[v]|);
      q.perLine == e.d.perLine && Shows(q, e.z, e.base, CleanedAcross(e, t, v, first))
  {
    hide Has, Static, Occupancy.Collect, To;
    first := CollectAcross(p, v, moved);
    var h := To(e.z, t.h, t.gc.line, {first});
    SpreadHas(p.on, e.z, t.h, e.base, p.perLine, t.gc.line, {first});
    SpreadHas(Spread(p.on, t.gc.line, {first}), e.z, h, e.base, p.perLine, t.free[0], p.on[v] - {first});
  }

  lemma LeastSize(e: Setup, t: Board, v: nat)
    requires LeastIn(e, t, v)
    ensures OneOf(e.z, v) && |HeldBy(e.z, t.h, v)| < e.d.perLine
  {
  }

  /** A batch that uses up the credits when no line is free and every victim holds more pages than GC can move. */
  lemma RunningOut(e: Setup, b: Board, xs: seq<nat>, t: Board, v: nat)
    requires Fine(e) && Attained(e, b) && Moving(e, xs) && b.credits == |xs| > 0 && FitsIn(e, b, |xs|)
    requires t == Wrote(e, b, Elements(xs), |xs|) && t.free == []
    requires ClosedIn(e, t, v) && |HeldBy(e.z, t.h, v)| < e.d.perLine
    requires forall u: nat :: ClosedIn(e, t, u) ==> t.gc.next + |HeldBy(e.z, t.h, u)| >= e.d.perLine
    ensures Ok(e.d) && Fails(e.d, e.n)
  {
    hide Reachable, Wrote, Occupancy.Batch, Static;
    var o :| Reachable(e.d, e.n, o) && o.perLine == e.d.perLine && Shows(o, e.z, e.base, b);
    var p := o.Batch(UserIo, Elements(xs), |xs|);
    WroteShows(e, o, b, Elements(xs), |xs|);
    BatchSize(o, Elements(xs), |xs|);
    assert p.Victim(v);
    forall u: nat | p.Victim(u)
      ensures p.gc.next + |p.on[u]| >= p.perLine
    {
      ClosedShows(e, p, t, u);
    }
    Exhaust(e.d, e.n, o, xs, p, v);
  }

  // ---------- moving pages to a line, by the name of the line ----------

  lemma IntoA(z: Lines, k: nat, h: Held, x: set<nat>, g: Held)
    requires Five(z, k)
    requires g.a == h.a + x && g.b == h.b - x && g.c == h.c - x && g.d == h.d - x && g.e == h.e - x
    ensures To(z, h, z.a, x) == g
  {
  }

  lemma IntoB(z: Lines, k: nat, h: Held, x: set<nat>, g: Held)
    requires Five(z, k)
    requires g.a == h.a - x && g.b == h.b + x && g.c == h.c - x && g.d == h.d - x && g.e == h.e - x
    ensures To(z, h, z.b, x) == g
  {
  }

  lemma IntoC(z: Lines, k: nat, h: Held, x: set<nat>, g: Held)
    requires Five(z, k)
    requires g.a == h.a - x && g.b == h.b - x && g.c == h.c + x && g.d == h.d - x && g.e == h.e - x
    ensures To(z, h, z.c, x) == g
  {
  }

  lemma IntoD(z: Lines, k: nat, h: Held, x: set<nat>, g: Held)
    requires Five(z, k)
    requires g.a == h.a - x && g.b == h.b - x && g.c == h.c - x && g.d == h.d + x && g.e == h.e - x
    ensures To(z, h, z.d, x) == g
  {
  }

  lemma IntoE(z: Lines, k: nat, h: Held, x: set<nat>, g: Held)
    requires Five(z, k)
    requires g.a == h.a - x && g.b == h.b - x && g.c == h.c - x && g.d == h.d - x && g.e == h.e + x
    ensures To(z, h, z.e, x) == g
  {
  }

  lemma HeldNamed(z: Lines, k: nat, h: Held)
    requires Five(z, k)
    ensures HeldBy(z, h, z.a) == h.a && HeldBy(z, h, z.b) == h.b && HeldBy(z, h, z.c) == h.c
    ensures HeldBy(z, h, z.d) == h.d && HeldBy(z, h, z.e) == h.e
  {
  }

  lemma NothingMoved(x: set<nat>)
    ensures var none: set<nat> := {}; none - x == none && none + x == x && x - x == none && x + none == x && x - none == x
  {
  }

  lemma LeastNamed(e: Setup, b: Board, v: nat, m: nat)
    requires Five(e.z, e.d.lines) && ClosedIn(e, b, v) && |HeldBy(e.z, b.h, v)| == m < e.d.perLine
    requires ClosedIn(e, b, e.z.a) && e.z.a != v ==> m < |b.h.a|
    requires ClosedIn(e, b, e.z.b) && e.z.b != v ==> m < |b.h.b|
    requires ClosedIn(e, b, e.z.c) && e.z.c != v ==> m < |b.h.c|
    requires ClosedIn(e, b, e.z.d) && e.z.d != v ==> m < |b.h.d|
    requires ClosedIn(e, b, e.z.e) && e.z.e != v ==> m < |b.h.e|
    ensures LeastIn(e, b, v)
  {
  }
}
