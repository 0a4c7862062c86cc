/** Logical pages are striped over the partitions of a namespace: page `lpn` is page `lpn / n` of
    partition `lpn % n` (conv_ftl.c). */
module Striping {
  import opened Arith

  /** The partition page and its number determine the logical page. */
  function Global(n: nat, part: nat, local: nat): nat {
    local * n + part
  }

  lemma StripeInverse(n: nat, lpn: nat)
    requires n > 0
    ensures lpn % n < n && Global(n, lpn % n, lpn / n) == lpn
  {
  }

  lemma StripeOnto(n: nat, part: nat, local: nat)
    requires part < n
    ensures Global(n, part, local) % n == part && Global(n, part, local) / n == local
  {
    DigitsUnique(local, part, n);
  }

  lemma StripeBound(n: nat, lpn: nat, end: nat, pages: nat)
    requires n > 0 && lpn <= end && end / n < pages
    ensures lpn / n < pages
  {
    var p, q := Div(lpn, n), Div(end, n);
    assert end == q * n + end % n && lpn == p * n + lpn % n;
    if p > q {
      MulMono(q + 1, p, n);
      Distribute(q, 1, n);
    }
  }

  // ---------- the order of conv_read ----------

  /** In which pass of the outer loop of `conv_read` page `x` of a request from `start` on is read. */
  function Lane(n: nat, start: nat, x: nat): nat
    requires n > 0 && start <= x
  {
    Mod(x - start, n)
  }

  /** Pass `i` begins at page `start + i` and moves on by `n` pages. */
  lemma LaneStart(n: nat, start: nat, i: nat)
    requires i < n
    ensures Lane(n, start, start + i) == i
  {
    DigitsUnique(0, i, n);
  }

  lemma LaneStep(n: nat, start: nat, x: nat)
    requires n > 0 && start <= x
    ensures Lane(n, start, x + n) == Lane(n, start, x)
  {
    var q, r := Div(x - start, n), Mod(x - start, n);
    assert x - start == q * n + r;
    Distribute(q, 1, n);
    DigitsUnique(q + 1, r, n);
  }

  /** Two pages of a lane are a multiple of `n` apart. */
  lemma LaneApart(n: nat, start: nat, x: nat, y: nat)
    requires n > 0 && start <= x <= y && Lane(n, start, x) == Lane(n, start, y)
    ensures exists d: nat :: y == x + Times(d, n)
  {
    var p, q, r := Div(x - start, n), Div(y - start, n), Mod(x - start, n);
    assert x - start == p * n + r && y - start == q * n + r;
    if q < p {
      MulMono(q + 1, p, n);
      Distribute(q, 1, n);
      assert false;
    }
    Distribute(p, q - p, n);
    assert y == x + Times(q - p, n);
  }

  function Times(d: nat, n: nat): nat {
    d * n
  }

  /** The next page of a lane is `n` further on, in the same partition. */
  lemma LaneNext(n: nat, start: nat, x: nat, y: nat)
    requires n > 0 && start <= x <= y && Lane(n, start, x) == Lane(n, start, y)
    ensures x == y || x + n <= y
    ensures x % n == y % n
  {
    LaneApart(n, start, x, y);
    var d: nat :| y == x + Times(d, n);
    var q, r := Div(x, n), Mod(x, n);
    assert x == q * n + r;
    if d > 0 {
      MulMono(1, d, n);
    }
    Distribute(q, d, n);
    DigitsUnique(q + d, r, n);
  }

  lemma LaneFirst(n: nat, start: nat, x: nat)
    requires n > 0 && start <= x
    ensures Lane(n, start, x) < n && start + Lane(n, start, x) <= x
  {
    var q := Div(x - start, n);
    assert x - start == q * n + Lane(n, start, x);
  }
}
