/** Counting the elements of a stretch of a sequence. */
module Counting {

  /** How many positions of `s` in [lo, hi) hold `x`. */
  function CountIn<T(==)>(s: seq<T>, lo: nat, hi: nat, x: T): (n: nat)
    ensures lo <= hi ==> n <= hi - lo
  {
    if hi <= lo then 0
    else CountIn(s, lo, hi - 1, x) + (if hi - 1 < |s| && s[hi - 1] == x then 1 else 0)
  }

  lemma {:induction false} CountUpdate<T>(s: seq<T>, lo: nat, hi: nat, x: T, p: nat, y: T)
    requires p < |s|
    ensures CountIn(s[p := y], lo, hi, x) ==
            CountIn(s, lo, hi, x) +
            (if lo <= p < hi then (if y == x then 1 else 0) - (if s[p] == x then 1 else 0) else 0)
  {
    if lo < hi {
      CountUpdate(s, lo, hi - 1, x, p, y);
    }
  }

  /** Different values are counted at different positions. */
  lemma {:induction false} CountDisjoint<T>(s: seq<T>, lo: nat, hi: nat, x: T, y: T)
    requires lo <= hi && x != y
    ensures CountIn(s, lo, hi, x) + CountIn(s, lo, hi, y) <= hi - lo
  {
    if lo < hi {
      CountDisjoint(s, lo, hi - 1, x, y);
    }
  }

  lemma {:induction false} CountPositive<T>(s: seq<T>, lo: nat, hi: nat, x: T, p: nat)
    requires lo <= p < hi && p < |s| && s[p] == x
    ensures CountIn(s, lo, hi, x) > 0
  {
    if p < hi - 1 {
      CountPositive(s, lo, hi - 1, x, p);
    }
  }

  /** Where the stretches agree, so do the counts. */
  lemma {:induction false} CountSame<T>(s: seq<T>, t: seq<T>, lo: nat, hi: nat, x: T)
    requires hi <= |s| && hi <= |t|
    requires forall k :: lo <= k < hi ==> s[k] == t[k]
    ensures CountIn(s, lo, hi, x) == CountIn(t, lo, hi, x)
  {
    if lo < hi {
      CountSame(s, t, lo, hi - 1, x);
    }
  }

  /** A full stretch of `x` counts its length, and only such a stretch does. */
  lemma {:induction false} CountAll<T>(s: seq<T>, lo: nat, hi: nat, x: T)
    requires lo <= hi <= |s|
    ensures CountIn(s, lo, hi, x) == hi - lo <==> forall k :: lo <= k < hi ==> s[k] == x
  {
    if lo < hi {
      CountAll(s, lo, hi - 1, x);
    }
  }

  lemma {:induction false} CountNone<T>(s: seq<T>, lo: nat, hi: nat, x: T)
    requires lo <= hi <= |s|
    ensures CountIn(s, lo, hi, x) == 0 <==> forall k :: lo <= k < hi ==> s[k] != x
  {
    if lo < hi {
      CountNone(s, lo, hi - 1, x);
    }
  }

  /** When only `x` and `y` occur, their counts add up to the length. */
  lemma {:induction false} CountBoth<T>(s: seq<T>, lo: nat, hi: nat, x: T, y: T)
    requires lo <= hi <= |s| && x != y
    requires forall k :: lo <= k < hi ==> s[k] == x || s[k] == y
    ensures CountIn(s, lo, hi, x) + CountIn(s, lo, hi, y) == hi - lo
  {
    if lo < hi {
      CountBoth(s, lo, hi - 1, x, y);
    }
  }

  // ---------- sizes of sets ----------

  /** The first `n` natural numbers. */
  ghost function Upto(n: nat): (s: set<nat>)
    ensures forall e :: e in s <==> 0 <= e < n
    ensures |s| == n
  {
    if n == 0 then {} else Upto(n - 1) + {n - 1}
  }

  lemma {:induction false} SubsetSize<T>(a: set<T>, b: set<T>)
    requires a <= b
    ensures |a| <= |b|
  {
    if x :| x in a {
      SubsetSize(a - {x}, b - {x});
    }
  }

  predicate NoDup<T(==)>(s: seq<T>) {
    forall i, j :: 0 <= i < j < |s| ==> s[i] != s[j]
  }

  ghost function Elements<T>(s: seq<T>): set<T> {
    set x | x in s
  }

  /** A list without repetition has as many elements as entries. */
  lemma {:induction false} NoDupSize<T>(s: seq<T>)
    requires NoDup(s)
    ensures |Elements(s)| == |s|
  {
    if s == [] {
      assert Elements(s) == {};
    } else {
      var t := s[..|s| - 1];
      NoDupSize(t);
      assert s == t + [s[|s| - 1]];
      assert Elements(s) == Elements(t) + {s[|s| - 1]};
    }
  }
}
