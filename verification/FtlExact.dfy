/** When the code runs out of free lines: in no run over (tt_lines - 4) * pgs_per_line logical pages, and in some run
    over one page more. */
module FtlExact {
  import opened Wrappers
  import opened Arith
  import opened Counting
  import NandArray
  import opened FtlModel
  import opened FtlRuns
  import opened FtlTight
  import opened FtlOccupancy
  import opened FtlBatches
  import opened FtlBoard

  // ---------- the failing run ----------

  // From one stage to the next the host's writes first fill a line where they cross its end (Fill), then use up the
  // credits (Use); GC then finds its victim (Least) and moves what it holds (Clean), or finds none (Quiet).

  /** The pages that the run writes more than once are those from `base` on: the first `perLine` of them, and X. Y names
      some of the former, T is the last of them. */
  ghost function Y(e: Setup, lo: nat, hi: nat): set<nat> {
    Span(e.base + lo, e.base + hi)
  }

  ghost function T(e: Setup): nat
    requires Fine(e)
  {
    e.base + e.d.perLine - 1
  }

  ghost function X(e: Setup): nat {
    e.base + e.d.perLine
  }

  /** All lines but these five are full. */
  ghost function Start(e: Setup): Board {
    var k, z := e.d.perLine, e.z;
    Board(WritePointer(z.a, 0), WritePointer(z.b, 0), [z.c, z.d, z.e], k, k, Held({}, {}, {}, {}, {}))
  }

  /** `i` pages of line c have been written again, each with a credit of its own. */
  ghost function Stage1(e: Setup, i: nat): Board
    requires Fine(e)
  {
    var k, z := e.d.perLine, e.z;
    Board(WritePointer(z.c, i), WritePointer(z.b, k - 1), [z.d, z.e, z.a], 1, 1,
          Held({}, Y(e, i, k - 1), Y(e, 0, i), {}, {}))
  }

  /** Line c is full of valid pages, and GC is stuck while X is written `i` times. */
  ghost function Stage2(e: Setup, i: nat): Board
    requires Fine(e)
  {
    var k, z := e.d.perLine, e.z;
    Board(WritePointer(z.d, i), WritePointer(z.b, k - 1), [z.e, z.a], 1, 1,
          Held({}, {}, Y(e, 0, k), if i == 0 then {} else {X(e)}, {}))
  }

  /** GC of line c has left one page on line b. */
  ghost function Stage3(e: Setup, first: nat): Board
    requires Fine(e)
  {
    var k, z := e.d.perLine, e.z;
    Board(WritePointer(z.d, k - 1), WritePointer(z.e, k - 2), [z.a, z.c], 1, 1,
          Held({}, {first}, {}, {X(e), e.base}, Y(e, 1, k) - {first}))
  }

  /** GC of line b has put it with the others. */
  ghost function Stage4(e: Setup): Board
    requires Fine(e)
  {
    var k, z := e.d.perLine, e.z;
    Board(WritePointer(z.a, 0), WritePointer(z.e, k - 1), [z.c, z.b], k - 1, k - 1,
          Held({}, {}, {}, {X(e), e.base}, Y(e, 1, k)))
  }

  /** Line d has been collected without a valid page. */
  ghost function Stage5(e: Setup): Board
    requires Fine(e)
  {
    var k, z := e.d.perLine, e.z;
    Board(WritePointer(z.a, k - 1), WritePointer(z.e, k - 1), [z.c, z.b, z.d], k, k,
          Held({X(e)} + Y(e, 0, k - 2), {}, {}, {}, Y(e, k - 2, k)))
  }

  /** GC is stuck with both write pointers on the last page of a line and a line's worth of credits to grant. */
  ghost function Stage6(e: Setup): Board
    requires Fine(e)
  {
    var k, z := e.d.perLine, e.z;
    Board(WritePointer(z.c, k - 1), WritePointer(z.e, k - 1), [z.b, z.d], k, k,
          Held({X(e)} + Y(e, 0, k - 1), {}, {T(e)}, {}, {}))
  }

  /** One free line. */
  ghost function Stage7(e: Setup): Board
    requires Fine(e)
  {
    var k, z := e.d.perLine, e.z;
    Board(WritePointer(z.b, k - 1), WritePointer(z.d, 0), [z.c], k - 1, k - 1,
          Held(Y(e, 2, k - 1), {e.base, e.base + 1} + {T(e)}, {}, {}, {X(e)}))
  }

  /** Every round of writes takes the free line, and GC gives one back after it has moved X; but every round starts one
      page earlier in its line, and GC one page later. */
  ghost function Stage8(e: Setup, j: nat): Board
    requires Fine(e) && 1 <= j < e.d.perLine
  {
    var k, z := e.d.perLine, e.z;
    Board(WritePointer(z.c, k - 1 - j), WritePointer(z.d, j), [z.e], k - 1, k - 1,
          Held(Y(e, 2, k - 1), {e.base, e.base + 1}, {T(e)}, {X(e)}, {}))
  }

  /** All but the last of the pages fill line a with one invalid page. GC copies them to line b. */
  lemma Reach1(e: Setup)
    requires Fine(e) && Five(e.z, e.d.lines) && Attained(e, Start(e))
    ensures Attained(e, Stage1(e, 0))
  {
    hide Attained, Elements, Upto, Start, Stage1, Wrote, Cleaned, LeastIn, HeldBy, Span, Count, FitsIn, Five;
    var k, z := e.d.perLine, e.z;
    var xs := [e.base] + Count(e.base, k - 1);
    ElementsConcat([e.base], Count(e.base, k - 1));
    assert Elements(xs) == Y(e, 0, k - 1);
    var t := Boards1(e);
    Cleaning(e, Start(e), xs, t, z.a);
  }

  lemma Boards1(e: Setup) returns (t: Board)
    requires Fine(e) && Five(e.z, e.d.lines)
    ensures var b := Start(e); b.credits == e.d.perLine && FitsIn(e, b, e.d.perLine)
    ensures t == Wrote(e, Start(e), Y(e, 0, e.d.perLine - 1), e.d.perLine) && |t.free| <= 2 && LeastIn(e, t, e.z.a)
    ensures HeldBy(e.z, t.h, e.z.a) == Y(e, 0, e.d.perLine - 1) && t.gc.next == 0
    ensures Cleaned(e, t, e.z.a) == Stage1(e, 0)
  {
    hide Span;
    var k, z := e.d.perLine, e.z;
    t := Board(WritePointer(z.c, 0), WritePointer(z.b, 0), [z.d, z.e], 0, k, Held(Y(e, 0, k - 1), {}, {}, {}, {}));
  }

  /** Three lines are free: no GC. */
  lemma Reach1Next(e: Setup, i: nat)
    requires Fine(e) && Five(e.z, e.d.lines) && i + 1 < e.d.perLine && Attained(e, Stage1(e, i))
    ensures Attained(e, Stage1(e, i + 1))
  {
    hide Attained, Elements, Upto, Stage1, Wrote, Span, FitsIn, Five, Quiet;
    ElementsConcat([e.base + i], []);
    var t := Boards1Next(e, i);
    Resting(e, Stage1(e, i), [e.base + i], t);
  }

  lemma Boards1Next(e: Setup, i: nat) returns (t: Board)
    requires Fine(e) && Five(e.z, e.d.lines) && i + 1 < e.d.perLine
    ensures Stage1(e, i).credits == 1 && FitsIn(e, Stage1(e, i), 1)
    ensures t == Wrote(e, Stage1(e, i), {e.base + i}, 1) && Quiet(e, t)
    ensures t.(credits := t.refill) == Stage1(e, i + 1)
  {
    hide Span;
    t := Stage1(e, i + 1).(credits := 0);
  }

  /** The line is full, the line GC writes to holds nothing any more, and GC finds no victim. */
  lemma Reach2(e: Setup)
    requires Fine(e) && Five(e.z, e.d.lines) && Attained(e, Stage1(e, e.d.perLine - 1))
    ensures Attained(e, Stage2(e, 0))
  {
    hide Attained, Elements, Upto, Stage1, Stage2, Wrote, Span, FitsIn, Five, Quiet;
    ElementsConcat([T(e)], []);
    var t := Boards2(e);
    Resting(e, Stage1(e, e.d.perLine - 1), [T(e)], t);
  }

  lemma Boards2(e: Setup) returns (t: Board)
    requires Fine(e) && Five(e.z, e.d.lines)
    ensures var b := Stage1(e, e.d.perLine - 1);
      b.credits == 1 && FitsIn(e, b, 1) && t == Wrote(e, b, {T(e)}, 1) && Quiet(e, t)
    ensures t.(credits := t.refill) == Stage2(e, 0)
  {
    hide Span;
    t := Stage2(e, 0).(credits := 0);
  }

  lemma Reach2Next(e: Setup, i: nat)
    requires Fine(e) && Five(e.z, e.d.lines) && i + 1 < e.d.perLine && Attained(e, Stage2(e, i))
    ensures Attained(e, Stage2(e, i + 1))
  {
    hide Attained, Elements, Upto, Stage2, Wrote, Span, FitsIn, Five, Quiet;
    ElementsConcat([X(e)], []);
    var t := Boards2Next(e, i);
    Resting(e, Stage2(e, i), [X(e)], t);
  }

  lemma Boards2Next(e: Setup, i: nat) returns (t: Board)
    requires Fine(e) && Five(e.z, e.d.lines) && i + 1 < e.d.perLine
    ensures Stage2(e, i).credits == 1 && FitsIn(e, Stage2(e, i), 1)
    ensures t == Wrote(e, Stage2(e, i), {X(e)}, 1) && Quiet(e, t)
    ensures t.(credits := t.refill) == Stage2(e, i + 1)
  {
    hide Span;
    t := Stage2(e, i + 1).(credits := 0);
  }

  /** Line c loses a page and is collected, over the end of line b. */
  lemma Reach3(e: Setup) returns (first: nat)
    requires Fine(e) && Five(e.z, e.d.lines) && Attained(e, Stage2(e, e.d.perLine - 2))
    ensures first in Y(e, 1, e.d.perLine) && Attained(e, Stage3(e, first))
  {
    hide Attained, Elements, Upto, Stage2, Stage3, Wrote, CleanedAcross, LeastIn, HeldBy, Span, FitsIn, Five;
    ElementsConcat([e.base], []);
    var t := Boards3(e);
    first := CleaningAcross(e, Stage2(e, e.d.perLine - 2), [e.base], t, e.z.c);
    Collected3(e, t, first);
  }

  lemma Boards3(e: Setup) returns (t: Board)
    requires Fine(e) && Five(e.z, e.d.lines)
    ensures var b := Stage2(e, e.d.perLine - 2);
      b.credits == 1 && FitsIn(e, b, 1) && t == Wrote(e, b, {e.base}, 1)
    ensures 0 < |t.free| <= 2 && LeastIn(e, t, e.z.c) && t.gc.next + 1 == e.d.perLine
    ensures HeldBy(e.z, t.h, e.z.c) == Y(e, 1, e.d.perLine) != {}
    ensures t == Board(WritePointer(e.z.d, e.d.perLine - 1), WritePointer(e.z.b, e.d.perLine - 1), [e.z.e, e.z.a], 0, 1,
                       Held({}, {}, Y(e, 1, e.d.perLine), {X(e), e.base}, {}))
  {
    hide Span;
    var k, z := e.d.perLine, e.z;
    t := Board(WritePointer(z.d, k - 1), WritePointer(z.b, k - 1), [z.e, z.a], 0, 1,
               Held({}, {}, Y(e, 1, k), {X(e), e.base}, {}));
    assert e.base + 1 in Y(e, 1, k);
  }

  lemma Collected3(e: Setup, t: Board, first: nat)
    requires Fine(e) && Five(e.z, e.d.lines) && first in Y(e, 1, e.d.perLine)
    requires t == Board(WritePointer(e.z.d, e.d.perLine - 1), WritePointer(e.z.b, e.d.perLine - 1), [e.z.e, e.z.a], 0, 1,
                        Held({}, {}, Y(e, 1, e.d.perLine), {X(e), e.base}, {}))
    ensures CleanedAcross(e, t, e.z.c, first) == Stage3(e, first)
  {
    hide Span;
  }

  /** Line d is full; line b with its one page is collected. */
  lemma Reach4(e: Setup, first: nat)
    requires Fine(e) && Five(e.z, e.d.lines) && first in Y(e, 1, e.d.perLine) && Attained(e, Stage3(e, first))
    ensures Attained(e, Stage4(e))
  {
    hide Attained, Elements, Upto, Stage3, Stage4, Wrote, Cleaned, LeastIn, HeldBy, Span, FitsIn, Five, Used4;
    ElementsConcat([X(e)], []);
    Use4(e, first);
    Least4(e, first);
    Clean4(e, first);
    Cleaning(e, Stage3(e, first), [X(e)], Used4(e, first), e.z.b);
  }

  ghost function Used4(e: Setup, first: nat): Board
    requires Fine(e)
  {
    var k, z := e.d.perLine, e.z;
    Board(WritePointer(z.a, 0), WritePointer(z.e, k - 2), [z.c], 0, 1,
          Held({}, {first}, {}, {X(e), e.base}, Y(e, 1, k) - {first}))
  }

  lemma Use4(e: Setup, first: nat)
    requires Fine(e) && Five(e.z, e.d.lines) && first in Y(e, 1, e.d.perLine)
    ensures var b := Stage3(e, first); b.credits == 1 && FitsIn(e, b, 1) && Used4(e, first) == Wrote(e, b, {X(e)}, 1)
  {
    hide Span, To;
    NothingMoved({X(e)});
    IntoD(e.z, e.d.lines, Stage3(e, first).h, {X(e)}, Used4(e, first).h);
  }

  lemma Least4(e: Setup, first: nat)
    requires Fine(e) && Five(e.z, e.d.lines) && first in Y(e, 1, e.d.perLine)
    ensures var t := Used4(e, first);
      |t.free| <= 2 && LeastIn(e, t, e.z.b) && HeldBy(e.z, t.h, e.z.b) == {first} && t.gc.next + 1 < e.d.perLine
  {
    hide Span, HeldBy, LeastIn;
    assert {X(e), e.base} == {X(e)} + {e.base};
    HeldNamed(e.z, e.d.lines, Used4(e, first).h);
    LeastNamed(e, Used4(e, first), e.z.b, 1);
  }

  lemma Clean4(e: Setup, first: nat)
    requires Fine(e) && Five(e.z, e.d.lines) && first in Y(e, 1, e.d.perLine)
    ensures Cleaned(e, Used4(e, first), e.z.b) == Stage4(e)
  {
    hide Span, To, HeldBy;
    NothingMoved({first});
    HeldNamed(e.z, e.d.lines, Used4(e, first).h);
    IntoE(e.z, e.d.lines, Used4(e, first).h, {first}, Stage4(e).h);
  }

  /** Line d has no valid page left and is collected. */
  lemma Reach5(e: Setup)
    requires Fine(e) && Five(e.z, e.d.lines) && Attained(e, Stage4(e))
    ensures Attained(e, Stage5(e))
  {
    hide Attained, Elements, Upto, Stage4, Stage5, Wrote, Cleaned, LeastIn, HeldBy, Span, FitsIn, Five, Count, Used5;
    var xs := [X(e)] + Count(e.base, e.d.perLine - 2);
    ElementsConcat([X(e)], Count(e.base, e.d.perLine - 2));
    assert Elements(xs) == {X(e)} + Y(e, 0, e.d.perLine - 2);
    Use5(e);
    Least5(e);
    Clean5(e);
    Cleaning(e, Stage4(e), xs, Used5(e), e.z.d);
  }

  ghost function Used5(e: Setup): Board
    requires Fine(e)
  {
    var k, z := e.d.perLine, e.z;
    Board(WritePointer(z.a, k - 1), WritePointer(z.e, k - 1), [z.c, z.b], 0, k - 1,
          Held({X(e)} + Y(e, 0, k - 2), {}, {}, {}, Y(e, k - 2, k)))
  }

  lemma Use5(e: Setup)
    requires Fine(e) && Five(e.z, e.d.lines)
    ensures var b := Stage4(e);
      && b.credits == e.d.perLine - 1 && FitsIn(e, b, e.d.perLine - 1)
      && Used5(e) == Wrote(e, b, {X(e)} + Y(e, 0, e.d.perLine - 2), e.d.perLine - 1)
  {
    hide Span, To;
    var x := {X(e)} + Y(e, 0, e.d.perLine - 2);
    NothingMoved(x);
    IntoA(e.z, e.d.lines, Stage4(e).h, x, Used5(e).h);
  }

  lemma Least5(e: Setup)
    requires Fine(e) && Five(e.z, e.d.lines)
    ensures var t := Used5(e);
      |t.free| <= 2 && LeastIn(e, t, e.z.d) && HeldBy(e.z, t.h, e.z.d) == {} && t.gc.next < e.d.perLine
  {
    hide Span, HeldBy, LeastIn;
    HeldNamed(e.z, e.d.lines, Used5(e).h);
    LeastNamed(e, Used5(e), e.z.d, 0);
  }

  lemma Clean5(e: Setup)
    requires Fine(e) && Five(e.z, e.d.lines)
    ensures Cleaned(e, Used5(e), e.z.d) == Stage5(e)
  {
    hide Span, To, HeldBy, X, Y;
    HeldNamed(e.z, e.d.lines, Used5(e).h);
    var h := Used5(e).h;
    NothingMoved({});
    NothingMoved(h.a);
    NothingMoved(h.e);
    IntoE(e.z, e.d.lines, h, {}, h);
  }

  /** Line a is full of valid pages, line e holds none any more, and GC finds no victim. */
  lemma Reach6(e: Setup)
    requires Fine(e) && Five(e.z, e.d.lines) && Attained(e, Stage5(e))
    ensures Attained(e, Stage6(e))
  {
    hide Attained, Elements, Upto, Stage5, Stage6, Wrote, Span, FitsIn, Five, Quiet, Repeat, Filled6;
    var k := e.d.perLine;
    ElementsConcat([e.base + k - 2], []);
    Fill6(e);
    Use6(e);
    Quiet6(e);
    Spending(e, Stage5(e), [e.base + k - 2]);
    Resting(e, Filled6(e), Repeat(T(e), k - 1), Stage6(e).(credits := 0));
  }

  ghost function Filled6(e: Setup): Board
    requires Fine(e)
  {
    var k, z := e.d.perLine, e.z;
    Board(WritePointer(z.c, 0), WritePointer(z.e, k - 1), [z.b, z.d], k - 1, k,
          Held({X(e)} + Y(e, 0, k - 1), {}, {}, {}, {T(e)}))
  }

  lemma Fill6(e: Setup)
    requires Fine(e) && Five(e.z, e.d.lines)
    ensures var b := Stage5(e);
      b.credits > 1 && FitsIn(e, b, 1) && Filled6(e) == Wrote(e, b, {e.base + e.d.perLine - 2}, 1)
  {
    hide Span, To;
    var x: nat := e.base + e.d.perLine - 2;
    NothingMoved({x});
    IntoA(e.z, e.d.lines, Stage5(e).h, {x}, Filled6(e).h);
  }

  lemma Use6(e: Setup)
    requires Fine(e) && Five(e.z, e.d.lines)
    ensures var m := Filled6(e);
      && m.credits == e.d.perLine - 1 && FitsIn(e, m, e.d.perLine - 1)
      && Stage6(e).(credits := 0) == Wrote(e, m, {T(e)}, e.d.perLine - 1)
  {
    hide Span, To;
    NothingMoved({T(e)});
    IntoC(e.z, e.d.lines, Filled6(e).h, {T(e)}, Stage6(e).h);
  }

  lemma Quiet6(e: Setup)
    requires Fine(e) && Five(e.z, e.d.lines)
    ensures Quiet(e, Stage6(e).(credits := 0)) && Stage6(e).credits == Stage6(e).refill
  {
    hide Span, HeldBy;
    HeldNamed(e.z, e.d.lines, Stage6(e).h);
    assert X(e) !in Y(e, 0, e.d.perLine - 1);
  }

  /** Line c with one valid page is collected, over the end of line e. */
  lemma Reach7(e: Setup)
    requires Fine(e) && Five(e.z, e.d.lines) && Attained(e, Stage6(e))
    ensures Attained(e, Stage7(e))
  {
    hide Attained, Elements, Upto, Stage6, Stage7, Wrote, CleanedAcross, LeastIn, HeldBy, Span, FitsIn, Five, Repeat,
         Filled7, Used7;
    ElementsConcat([X(e)], []);
    var xs := LowThen(e, e.d.perLine - 3);
    Fill7(e);
    Use7(e);
    Least7(e);
    Clean7(e);
    Spending(e, Stage6(e), [X(e)]);
    var first := CleaningAcross(e, Filled7(e), xs, Used7(e), e.z.c);
  }

  lemma LowThen(e: Setup, i: nat) returns (xs: seq<nat>)
    requires Fine(e) && i > 0
    ensures |xs| == i + 2 && Elements(xs) == {e.base, e.base + 1} + {T(e)} && Moving(e, xs)
  {
    hide Elements, Repeat;
    var low := [e.base] + [e.base + 1];
    ElementsConcat([e.base], [e.base + 1]);
    ElementsConcat(low, Repeat(T(e), i));
    xs := low + Repeat(T(e), i);
  }

  ghost function Filled7(e: Setup): Board
    requires Fine(e)
  {
    var k, z := e.d.perLine, e.z;
    Board(WritePointer(z.b, 0), WritePointer(z.e, k - 1), [z.d], k - 1, k,
          Held(Y(e, 0, k - 1), {}, {T(e)} + {X(e)}, {}, {}))
  }

  ghost function Used7(e: Setup): Board
    requires Fine(e)
  {
    var k, z := e.d.perLine, e.z;
    Board(WritePointer(z.b, k - 1), WritePointer(z.e, k - 1), [z.d], 0, k,
          Held(Y(e, 2, k - 1), {e.base, e.base + 1} + {T(e)}, {X(e)}, {}, {}))
  }

  lemma Fill7(e: Setup)
    requires Fine(e) && Five(e.z, e.d.lines)
    ensures var b := Stage6(e); b.credits > 1 && FitsIn(e, b, 1) && Filled7(e) == Wrote(e, b, {X(e)}, 1)
  {
    hide Span, To;
    NothingMoved({X(e)});
    IntoC(e.z, e.d.lines, Stage6(e).h, {X(e)}, Filled7(e).h);
  }

  lemma Use7(e: Setup)
    requires Fine(e) && Five(e.z, e.d.lines)
    ensures var m := Filled7(e);
      && m.credits == e.d.perLine - 1 && FitsIn(e, m, e.d.perLine - 1)
      && Used7(e) == Wrote(e, m, {e.base, e.base + 1} + {T(e)}, e.d.perLine - 1)
  {
    hide Span, To;
    var x := {e.base, e.base + 1} + {T(e)};
    NothingMoved(x);
    IntoB(e.z, e.d.lines, Filled7(e).h, x, Used7(e).h);
  }

  lemma Least7(e: Setup)
    requires Fine(e) && Five(e.z, e.d.lines)
    ensures var t := Used7(e);
      && 0 < |t.free| <= 2 && LeastIn(e, t, e.z.c) && t.gc.next + 1 == e.d.perLine
      && HeldBy(e.z, t.h, e.z.c) == {X(e)}
  {
    hide Span, HeldBy, LeastIn;
    HeldNamed(e.z, e.d.lines, Used7(e).h);
    LeastNamed(e, Used7(e), e.z.c, 1);
  }

  lemma Clean7(e: Setup)
    requires Fine(e) && Five(e.z, e.d.lines)
    ensures OneOf(e.z, e.z.c) && HeldBy(e.z, Used7(e).h, e.z.c) != {}
    ensures CleanedAcross(e, Used7(e), e.z.c, X(e)) == Stage7(e)
  {
    hide Span, To, HeldBy;
    HeldNamed(e.z, e.d.lines, Used7(e).h);
    var h, g := Used7(e).h, Stage7(e).h;
    NothingMoved({X(e)});
    NothingMoved({});
    IntoE(e.z, e.d.lines, h, {X(e)}, g);
    NothingMoved(g.a);
    NothingMoved(g.b);
    NothingMoved(g.e);
    IntoD(e.z, e.d.lines, g, {}, g);
  }

  /** The pages that lines a and b keep from here on. */
  lemma KeptSets(e: Setup)
    requires Fine(e)
    ensures var mid := Y(e, 2, e.d.perLine - 1);
      mid - {T(e)} == mid && mid - {X(e)} == mid && mid - ({X(e)} + {T(e)}) == mid
    ensures var low := {e.base, e.base + 1};
      low - {T(e)} == low && low - {X(e)} == low && low - ({X(e)} + {T(e)}) == low
    ensures {T(e)} - {X(e)} == {T(e)} && {X(e)} - {T(e)} == {X(e)} && T(e) != X(e)
    ensures var both := {X(e)} + {T(e)};
      {X(e)} - both == {} && {T(e)} + both == both && both - {T(e)} == {X(e)}
  {
    hide Span;
    assert T(e) !in Y(e, 2, e.d.perLine - 1) && X(e) !in Y(e, 2, e.d.perLine - 1);
  }

  lemma KeptSizes(e: Setup)
    requires Fine(e)
    ensures |Y(e, 2, e.d.perLine - 1)| == e.d.perLine - 3
    ensures |{e.base, e.base + 1}| == 2 && |{X(e)} + {T(e)}| == 2
  {
    hide Span;
    assert {e.base, e.base + 1} == {e.base} + {e.base + 1};
  }

  /** The last free line is taken, and line e is collected. */
  lemma Reach8(e: Setup)
    requires Fine(e) && Five(e.z, e.d.lines) && Attained(e, Stage7(e))
    ensures Attained(e, Stage8(e, 1))
  {
    hide Attained, Elements, Upto, Stage7, Stage8, Wrote, Cleaned, LeastIn, HeldBy, Span, FitsIn, Five, Repeat,
         FirstFilled8, FirstUsed8;
    ElementsConcat([T(e)], []);
    FirstFill8(e);
    FirstUse8(e);
    FirstLeast8(e);
    FirstClean8(e);
    Spending(e, Stage7(e), [T(e)]);
    Cleaning(e, FirstFilled8(e), Repeat(T(e), e.d.perLine - 2), FirstUsed8(e), e.z.e);
  }

  ghost function FirstFilled8(e: Setup): Board
    requires Fine(e)
  {
    var k, z := e.d.perLine, e.z;
    Board(WritePointer(z.c, 0), WritePointer(z.d, 0), [], k - 2, k - 1,
          Held(Y(e, 2, k - 1), {e.base, e.base + 1} + {T(e)}, {}, {}, {X(e)}))
  }

  ghost function FirstUsed8(e: Setup): Board
    requires Fine(e)
  {
    var k, z := e.d.perLine, e.z;
    Board(WritePointer(z.c, k - 2), WritePointer(z.d, 0), [], 0, k - 1,
          Held(Y(e, 2, k - 1), {e.base, e.base + 1}, {T(e)}, {}, {X(e)}))
  }

  lemma FirstFill8(e: Setup)
    requires Fine(e) && Five(e.z, e.d.lines)
    ensures var b := Stage7(e); b.credits > 1 && FitsIn(e, b, 1) && FirstFilled8(e) == Wrote(e, b, {T(e)}, 1)
  {
    hide Span, X, T, Y, To;
    KeptSets(e);
    NothingMoved({T(e)});
    var low := {e.base, e.base + 1};
    assert (low + {T(e)}) + {T(e)} == low + {T(e)};
    IntoB(e.z, e.d.lines, Stage7(e).h, {T(e)}, FirstFilled8(e).h);
  }

  lemma FirstUse8(e: Setup)
    requires Fine(e) && Five(e.z, e.d.lines)
    ensures var m := FirstFilled8(e);
      && m.credits == e.d.perLine - 2 && FitsIn(e, m, e.d.perLine - 2)
      && FirstUsed8(e) == Wrote(e, m, {T(e)}, e.d.perLine - 2)
  {
    hide Span, X, T, Y, To;
    KeptSets(e);
    NothingMoved({T(e)});
    var low := {e.base, e.base + 1};
    assert (low + {T(e)}) - {T(e)} == low;
    IntoC(e.z, e.d.lines, FirstFilled8(e).h, {T(e)}, FirstUsed8(e).h);
  }

  lemma FirstLeast8(e: Setup)
    requires Fine(e) && Five(e.z, e.d.lines)
    ensures var t := FirstUsed8(e);
      |t.free| <= 2 && LeastIn(e, t, e.z.e) && HeldBy(e.z, t.h, e.z.e) == {X(e)} && t.gc.next + 1 < e.d.perLine
  {
    hide Span, X, T, Y, HeldBy, LeastIn;
    KeptSizes(e);
    HeldNamed(e.z, e.d.lines, FirstUsed8(e).h);
    LeastNamed(e, FirstUsed8(e), e.z.e, 1);
  }

  lemma FirstClean8(e: Setup)
    requires Fine(e) && Five(e.z, e.d.lines)
    ensures OneOf(e.z, e.z.e) && Cleaned(e, FirstUsed8(e), e.z.e) == Stage8(e, 1)
  {
    hide Span, X, T, Y, To, HeldBy;
    KeptSets(e);
    NothingMoved({X(e)});
    HeldNamed(e.z, e.d.lines, FirstUsed8(e).h);
    IntoD(e.z, e.d.lines, FirstUsed8(e).h, {X(e)}, Stage8(e, 1).h);
  }

  /** Lines c and e change places. */
  ghost function Swapped(e: Setup): (r: Setup)
    ensures r.d == e.d && (Fine(e) ==> Fine(r))
  {
    e.(z := e.z.(c := e.z.e, e := e.z.c))
  }

  lemma SwapAttained(e: Setup, b: Board)
    requires Attained(e, b)
    ensures Attained(Swapped(e), b.(h := b.h.(c := b.h.e, e := b.h.c)))
  {
    hide Reachable, Upto;
    var o :| Reachable(e.d, e.n, o) && o.perLine == e.d.perLine && Shows(o, e.z, e.base, b);
    var t := b.(h := b.h.(c := b.h.e, e := b.h.c));
    assert Shows(o, Swapped(e).z, e.base, t);
  }

  /** The same state when line c has been filled, and when the credits are used up. */
  ghost function Filled8(e: Setup, j: nat): Board
    requires Fine(e) && j + 2 < e.d.perLine
  {
    var k, z := e.d.perLine, e.z;
    Board(WritePointer(z.e, 0), WritePointer(z.d, j), [], k - 2 - j, k - 1,
          Held(Y(e, 2, k - 1), {e.base, e.base + 1}, {X(e)} + {T(e)}, {}, {}))
  }

  ghost function Used8(e: Setup, j: nat): Board
    requires Fine(e) && j + 2 < e.d.perLine
  {
    var k, z := e.d.perLine, e.z;
    Board(WritePointer(z.e, k - 2 - j), WritePointer(z.d, j), [], 0, k - 1,
          Held(Y(e, 2, k - 1), {e.base, e.base + 1}, {X(e)}, {}, {T(e)}))
  }

  /** One round. */
  lemma Reach8Next(e: Setup, j: nat)
    requires Fine(e) && Five(e.z, e.d.lines) && 1 <= j && j + 2 < e.d.perLine && Attained(e, Stage8(e, j))
    ensures Attained(Swapped(e), Stage8(Swapped(e), j + 1))
  {
    hide Attained, Elements, Upto, Stage8, Wrote, Cleaned, LeastIn, HeldBy, Span, FitsIn, Five, Repeat, Filled8, Used8;
    var k := e.d.perLine;
    var xs := [X(e)] + Repeat(T(e), j);
    ElementsConcat([X(e)], Repeat(T(e), j));
    Fill8(e, j);
    Use8(e, j);
    Least8(e, j);
    Clean8(e, j);
    Spending(e, Stage8(e, j), xs);
    Cleaning(e, Filled8(e, j), Repeat(T(e), k - 2 - j), Used8(e, j), e.z.c);
    SwapAttained(e, Cleaned(e, Used8(e, j), e.z.c));
  }

  lemma Fill8(e: Setup, j: nat)
    requires Fine(e) && Five(e.z, e.d.lines) && 1 <= j && j + 2 < e.d.perLine
    ensures var b := Stage8(e, j);
      b.credits > j + 1 && FitsIn(e, b, j + 1) && Filled8(e, j) == Wrote(e, b, {X(e)} + {T(e)}, j + 1)
  {
    hide Span, X, T, Y, To, Five;
    KeptSets(e);
    NothingMoved({X(e)} + {T(e)});
    IntoC(e.z, e.d.lines, Stage8(e, j).h, {X(e)} + {T(e)}, Filled8(e, j).h);
  }

  lemma Use8(e: Setup, j: nat)
    requires Fine(e) && Five(e.z, e.d.lines) && 1 <= j && j + 2 < e.d.perLine
    ensures var m, t := Filled8(e, j), Used8(e, j);
      && m.credits == e.d.perLine - 2 - j && FitsIn(e, m, e.d.perLine - 2 - j)
      && t == Wrote(e, m, {T(e)}, e.d.perLine - 2 - j)
  {
    hide Span, X, T, Y, To, Five;
    KeptSets(e);
    NothingMoved({T(e)});
    IntoE(e.z, e.d.lines, Filled8(e, j).h, {T(e)}, Used8(e, j).h);
  }

  lemma Least8(e: Setup, j: nat)
    requires Fine(e) && Five(e.z, e.d.lines) && 1 <= j && j + 2 < e.d.perLine
    ensures var t := Used8(e, j);
      && |t.free| <= 2 && LeastIn(e, t, e.z.c)
      && HeldBy(e.z, t.h, e.z.c) == {X(e)} && t.gc.next + 1 < e.d.perLine
  {
    hide Span, X, T, Y, To, HeldBy, LeastIn;
    KeptSizes(e);
    HeldNamed(e.z, e.d.lines, Used8(e, j).h);
    LeastNamed(e, Used8(e, j), e.z.c, 1);
  }

  lemma Clean8(e: Setup, j: nat)
    requires Fine(e) && Five(e.z, e.d.lines) && 1 <= j && j + 2 < e.d.perLine
    ensures var q := Cleaned(e, Used8(e, j), e.z.c); q.(h := q.h.(c := q.h.e, e := q.h.c)) == Stage8(Swapped(e), j + 1)
  {
    hide Span, X, T, Y, To, HeldBy, Stage8;
    var t, g := Used8(e, j), Held(Y(e, 2, e.d.perLine - 1), {e.base, e.base + 1}, {}, {X(e)}, {T(e)});
    KeptSets(e);
    NothingMoved({X(e)});
    HeldNamed(e.z, e.d.lines, t.h);
    IntoD(e.z, e.d.lines, t.h, {X(e)}, g);
    Turn8(e, j, g);
  }

  lemma Turn8(e: Setup, j: nat, g: Held)
    requires Fine(e) && 1 <= j && j + 2 < e.d.perLine
    requires g == Held(Y(e, 2, e.d.perLine - 1), {e.base, e.base + 1}, {}, {X(e)}, {T(e)})
    ensures Board(WritePointer(e.z.e, e.d.perLine - 2 - j), WritePointer(e.z.d, j + 1), [] + [e.z.c], e.d.perLine - 1,
                  e.d.perLine - 1, g.(c := g.e, e := g.c))
            == Stage8(Swapped(e), j + 1)
  {
    hide Span;
  }

  /** In the last round every closed line holds two pages or more, and GC has room for one. */
  lemma ReachEnd(e: Setup)
    requires Fine(e) && Five(e.z, e.d.lines) && Attained(e, Stage8(e, e.d.perLine - 2))
    ensures Ok(e.d) && Fails(e.d, e.n)
  {
    hide Attained, Elements, Upto, Stage8, Wrote, HeldBy, Span, FitsIn, Five, Repeat, ClosedIn, AtEnd;
    var k := e.d.perLine;
    var xs := [X(e)] + Repeat(T(e), k - 2);
    ElementsConcat([X(e)], Repeat(T(e), k - 2));
    UseEnd(e);
    NoRoomAtEnd(e);
    RunningOut(e, Stage8(e, k - 2), xs, AtEnd(e), e.z.b);
  }

  ghost function AtEnd(e: Setup): Board
    requires Fine(e)
  {
    var k, z := e.d.perLine, e.z;
    Board(WritePointer(z.e, 0), WritePointer(z.d, k - 2), [], 0, k - 1,
          Held(Y(e, 2, k - 1), {e.base, e.base + 1}, {X(e)} + {T(e)}, {}, {}))
  }

  lemma UseEnd(e: Setup)
    requires Fine(e) && Five(e.z, e.d.lines)
    ensures var b := Stage8(e, e.d.perLine - 2);
      && b.credits == e.d.perLine - 1 && FitsIn(e, b, e.d.perLine - 1)
      && AtEnd(e) == Wrote(e, b, {X(e)} + {T(e)}, e.d.perLine - 1)
  {
    hide Span, X, T, Y, To;
    KeptSets(e);
    NothingMoved({X(e)} + {T(e)});
    IntoC(e.z, e.d.lines, Stage8(e, e.d.perLine - 2).h, {X(e)} + {T(e)}, AtEnd(e).h);
  }

  lemma NoRoomAtEnd(e: Setup)
    requires Fine(e) && Five(e.z, e.d.lines)
    ensures var t := AtEnd(e);
      && t.free == [] && ClosedIn(e, t, e.z.b) && |HeldBy(e.z, t.h, e.z.b)| < e.d.perLine
      && forall u: nat :: ClosedIn(e, t, u) ==> t.gc.next + |HeldBy(e.z, t.h, u)| >= e.d.perLine
  {
    hide Span, X, T, Y, HeldBy;
    KeptSizes(e);
    HeldNamed(e.z, e.d.lines, AtEnd(e).h);
  }

  // ---------- from the initial state to the failure ----------

  lemma {:induction false} Repeat1(e: Setup, i: nat)
    requires Fine(e) && Five(e.z, e.d.lines) && i < e.d.perLine && Attained(e, Stage1(e, 0))
    ensures Attained(e, Stage1(e, i))
  {
    hide Attained, Stage1, Five;
    if i > 0 {
      Repeat1(e, i - 1);
      Reach1Next(e, i - 1);
    }
  }

  lemma {:induction false} Repeat2(e: Setup, i: nat)
    requires Fine(e) && Five(e.z, e.d.lines) && i < e.d.perLine && Attained(e, Stage2(e, 0))
    ensures Attained(e, Stage2(e, i))
  {
    hide Attained, Stage2, Five;
    if i > 0 {
      Repeat2(e, i - 1);
      Reach2Next(e, i - 1);
    }
  }

  lemma {:induction false} Repeat8(e: Setup, j: nat)
    requires Fine(e) && Five(e.z, e.d.lines) && 1 <= j && j + 1 < e.d.perLine && Attained(e, Stage8(e, j))
    ensures Ok(e.d) && Fails(e.d, e.n)
    decreases e.d.perLine - j
  {
    hide Attained, Stage8, Ok, Fails;
    if j + 2 == e.d.perLine {
      ReachEnd(e);
    } else {
      Reach8Next(e, j);
      Repeat8(Swapped(e), j + 1);
    }
  }

  lemma StartFails(e: Setup)
    requires Fine(e) && Five(e.z, e.d.lines) && Attained(e, Start(e))
    ensures Ok(e.d) && Fails(e.d, e.n)
  {
    hide Attained, Start, Stage1, Stage2, Stage3, Stage4, Stage5, Stage6, Stage7, Stage8, Ok, Fails, Five;
    Reach1(e);
    Repeat1(e, e.d.perLine - 1);
    Reach2(e);
    Repeat2(e, e.d.perLine - 2);
    var first := Reach3(e);
    Reach4(e, first);
    Reach5(e);
    Reach6(e);
    Reach7(e);
    Reach8(e);
    Repeat8(e, 1);
  }

  /** When all lines but five have been filled, the occupancy is the one the failing run starts with. */
  lemma FilledShows(d: Device, s: Ftl, base: nat) returns (z: Lines)
    requires d.lines >= 5 && Filled(d, s, d.lines - 5, 0, base)
    ensures Five(z, d.lines)
    ensures Shows(Occ(s), z, base, Start(Setup(d, base + d.perLine + 1, base, z)))
  {
    z := FiveLines(d, s, base);
    NothingOn(d, s, base, z);
    FullOn(d, s, base, z);
    hide Core, Mapped;
  }

  lemma FiveLines(d: Device, s: Ftl, base: nat) returns (z: Lines)
    requires d.lines >= 5 && Filled(d, s, d.lines - 5, 0, base)
    ensures Five(z, d.lines) && s.user == WritePointer(z.a, 0) && s.gc == WritePointer(z.b, 0)
    ensures s.freeLines == [z.c, z.d, z.e]
  {
    var f := s.freeLines;
    z := Lines(s.user.line, s.gc.line, f[0], f[1], f[2]);
    assert f == [f[0], f[1], f[2]];
    assert f[0] in f && f[1] in f && f[2] in f;
    assert Places(s, -1, z.a) == 1 && Places(s, -1, z.b) == 1;
    assert Places(s, -1, z.c) == 1 && Places(s, -1, z.d) == 1 && Places(s, -1, z.e) == 1;
  }

  lemma NothingOn(d: Device, s: Ftl, base: nat, z: Lines)
    requires d.lines >= 5 && Filled(d, s, d.lines - 5, 0, base)
    requires Five(z, d.lines) && s.user == WritePointer(z.a, 0) && s.gc == WritePointer(z.b, 0)
    requires s.freeLines == [z.c, z.d, z.e]
    ensures forall l :: OneOf(z, l) ==> On(s, l) == {}
  {
    forall l: nat | OneOf(z, l)
      ensures On(s, l) == {}
    {
      OnSize(s, l);
      assert LineOk(s, l) && Written(s, l) == 0;
      CountNone(s.status[l], 0, s.perLine, NandArray.Valid);
    }
  }

  lemma FullOn(d: Device, s: Ftl, base: nat, z: Lines)
    requires d.lines >= 5 && Filled(d, s, d.lines - 5, 0, base)
    requires Five(z, d.lines) && s.user == WritePointer(z.a, 0) && s.gc == WritePointer(z.b, 0)
    requires s.freeLines == [z.c, z.d, z.e]
    ensures forall l :: 0 <= l < d.lines && !OneOf(z, l) ==> |On(s, l)| == d.perLine && On(s, l) <= Upto(base)
  {
    forall l | 0 <= l < d.lines && !OneOf(z, l)
      ensures |On(s, l)| == d.perLine && On(s, l) <= Upto(base)
    {
      OnSize(s, l);
      assert Places(s, -1, l) == 1 && LineOk(s, l);
      assert On(s, l) <= Mapped(s);
    }
  }

  /** One page more than (tt_lines - 4) * pgs_per_line, and some run takes a line from the empty free list. */
  lemma OneMoreFails(d: Device, n: nat)
    requires Ok(d) && d.lines >= 5 && d.perLine >= 5 && n == (d.lines - 4) * d.perLine + 1 <= d.pages
    ensures Fails(d, n)
  {
    hide Filled, Run, Ok, Shows, Start, Five, Going;
    var base := (d.lines - 5) * d.perLine;
    Distribute(d.lines - 5, 1, d.perLine);
    FillRun(d, d.lines - 5, 0, base);
    var s := Run(d, Sequential(base)).value;
    var z := FilledShows(d, s, base);
    var e := Setup(d, n, base, z);
    Started(e, s);
    StartFails(e);
  }

  lemma Started(e: Setup, s: Ftl)
    requires Fine(e) && Ok(e.d) && e.base <= e.d.pages && WritesTo(Sequential(e.base), Upto(e.d.pages))
    requires Run(e.d, Sequential(e.base)) == Some(s) && Sized(e.d, s) && Shows(Occ(s), e.z, e.base, Start(e))
    ensures Attained(e, Start(e))
  {
    hide Run, Ok, Shows, Start, Upto, Sequential;
    SequentialIn(e.base, e.n);
    assert Comes(e.d, e.n, Occ(s), Sequential(e.base));
  }

  /** No run over at most `n` logical pages takes a line from the empty free list. */
  ghost predicate NeverFails(d: Device, n: nat)
    requires Ok(d)
  {
    forall writes: seq<Write>, written: set<nat> ::
      written <= Upto(d.pages) && |written| <= n && WritesTo(writes, written) && WritesTo(writes, Upto(d.pages)) ==>
        Run(d, writes).Some?
  }

  lemma FewNeverFail(d: Device, n: nat)
    requires Ok(d) && d.lines >= 5 && n <= (d.lines - 4) * d.perLine
    ensures NeverFails(d, n)
  {
    hide Ok, Run, WritesTo;
    forall writes: seq<Write>, written: set<nat>
      | written <= Upto(d.pages) && |written| <= n && WritesTo(writes, written) && WritesTo(writes, Upto(d.pages))
      ensures Run(d, writes).Some?
    {
      RunNeverFails(d, writes, written);
    }
  }

  lemma FailsAbove(d: Device, m: nat, n: nat)
    requires Ok(d) && m <= n && m <= d.pages && Fails(d, m)
    ensures !NeverFails(d, n)
  {
    hide Ok, Run, WritesTo, Upto;
    var writes :| Over(d, m, writes) && Run(d, writes) == None;
    UptoMono(m, d.pages);
    assert WritesTo(writes, Upto(m));
  }

  /** When the free list runs out: behind every used-up line there is a free line in every run over at most `n` logical
      pages, if and only if `n` is at most (tt_lines - 4) * pgs_per_line. This holds for every rule of choosing victims
      and every scan order. */
  lemma FreeLinesExact(d: Device, n: nat)
    requires Ok(d) && d.lines >= 5 && d.perLine >= 5 && n <= d.pages
    ensures NeverFails(d, n) <==> n <= (d.lines - 4) * d.perLine
  {
    hide Ok, NeverFails, Fails;
    var bound := (d.lines - 4) * d.perLine;
    if n <= bound {
      FewNeverFail(d, n);
    } else {
      OneMoreFails(d, bound + 1);
      FailsAbove(d, bound + 1, n);
    }
  }

  /** For lines of any size: the bound suffices, and filling all lines but one with different pages fails. */
  lemma FreeLinesBetween(d: Device, n: nat)
    requires Ok(d) && d.lines >= 5 && n <= d.pages
    ensures n <= (d.lines - 4) * d.perLine ==> NeverFails(d, n)
    ensures n >= (d.lines - 1) * d.perLine ==> !NeverFails(d, n)
  {
    hide Ok, NeverFails, Fails, Run, Sequential, WritesTo, Upto;
    if n <= (d.lines - 4) * d.perLine {
      FewNeverFail(d, n);
    }
    var most := (d.lines - 1) * d.perLine;
    if n >= most {
      SequentialFails(d);
      SequentialIn(most, most);
      FailsWith(d, most, Sequential(most));
      FailsAbove(d, most, n);
    }
  }

  lemma FailsWith(d: Device, n: nat, writes: seq<Write>)
    requires Ok(d) && WritesTo(writes, Upto(n)) && WritesTo(writes, Upto(d.pages)) && Run(d, writes) == None
    ensures Fails(d, n)
  {
    hide Ok, Run, WritesTo, Upto;
    assert Over(d, n, writes);
  }
}
