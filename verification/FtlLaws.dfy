/** What the invariant of the FTL says about the two mapping tables, and what garbage collection keeps. */
module FtlLaws {
  import opened Wrappers
  import opened NandArray
  import opened FtlModel
  import opened FtlGc
  import opened FtlRuns

  /** The mapping tables are inverse on exactly the valid pages: a page is valid if and only if some
      logical page is mapped to it, and then it is the one its reverse entry names. */
  lemma TablesInverse(s: Ftl, p: Page)
    requires Core(s, -1, {}, -1) && InRange(s, p)
    ensures s.status[p.line][p.ord] == Valid <==> exists x :: 0 <= x < |s.maptbl| && s.maptbl[x] == Some(p)
    ensures forall x :: 0 <= x < |s.maptbl| && s.maptbl[x] == Some(p) ==> s.rmap[p.line][p.ord] == Some(x)
  {
    if s.status[p.line][p.ord] == Valid {
      assert Live(s, -1, {}, p.line, p.ord) && MappedBy(s, p.line, p.ord);
    }
    forall x | 0 <= x < |s.maptbl| && s.maptbl[x] == Some(p)
      ensures s.status[p.line][p.ord] == Valid && s.rmap[p.line][p.ord] == Some(x)
    {
      assert MapsBack(s, -1, {}, x);
    }
  }

  /** No two logical pages share a physical page. */
  lemma MaptblInjective(s: Ftl, x: nat, y: nat)
    requires Core(s, -1, {}, -1) && x < |s.maptbl| && y < |s.maptbl|
    requires s.maptbl[x].Some? && s.maptbl[x] == s.maptbl[y]
    ensures x == y
  {
    assert MapsBack(s, -1, {}, x) && MapsBack(s, -1, {}, y);
  }

  /** `do_gc` keeps the set of mapped logical pages and the number of valid pages, and gives every page of
      the victim a new place of its own. */
  lemma GcKeepsPages(s: Ftl, v: nat, order: seq<nat>)
    requires Core(s, -1, {}, -1) && v in s.victims && ScansLine(order, s.perLine) && HasRoom(s, v)
    ensures var t := Gc(s, v, order);
      && Mapped(t) == Mapped(s)
      && SumVpc(t, |t.vpc|) == SumVpc(s, |s.vpc|)
      && (forall x, y :: x in Mapped(t) && y in Mapped(t) && x != y ==> t.maptbl[x] != t.maptbl[y])
  {
    var t := Gc(s, v, order);
    hide Gc;
    forall x | 0 <= x < |s.maptbl|
      ensures x in Mapped(t) <==> x in Mapped(s)
    {
      assert Relocated(s, t, v, x);
    }
    assert Mapped(t) == Mapped(s);
    ValidPagesAreMapped(s);
    ValidPagesAreMapped(t);
    forall x, y | x in Mapped(t) && y in Mapped(t) && x != y
      ensures t.maptbl[x] != t.maptbl[y]
    {
      if t.maptbl[x] == t.maptbl[y] {
        MaptblInjective(t, x, y);
      }
    }
  }
}
