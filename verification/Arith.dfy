/** The few facts about multiplication and division that the address arithmetic needs. */
module Arith {

  /** Division and remainder of natural numbers are natural numbers. */
  function Div(a: nat, b: nat): nat
    requires b > 0
  {
    a / b
  }

  function Mod(a: nat, b: nat): nat
    requires b > 0
  {
    a % b
  }

  function Min(a: nat, b: nat): nat {
    if a <= b then a else b
  }

  function Max(a: nat, b: nat): nat {
    if a > b then a else b
  }

  function MulAdd(a: nat, size: nat, b: nat): nat {
    a * size + b
  }

  lemma MulMono(a: nat, b: nat, k: nat)
    requires a <= b
    ensures a * k <= b * k
  {
  }

  lemma PositiveFactors(a: nat, b: nat)
    requires a * b > 0
    ensures a > 0 && b > 0
  {
  }

  lemma PositiveProduct(a: nat, b: nat)
    requires a > 0 && b > 0
    ensures a * b > 0
  {
  }

  lemma MulAssoc(a: nat, b: nat, c: nat)
    ensures (a * b) * c == a * (b * c)
  {
  }

  lemma Distribute(a: nat, b: nat, k: nat)
    ensures (a + b) * k == a * k + b * k
  {
  }

  /** Two ways to write a number as quotient and remainder agree. */
  lemma QuotientUnique(q: nat, r: nat, s: nat, t: nat, size: nat)
    requires r < size && t < size
    requires q * size + r == s * size + t
    ensures q == s && r == t
  {
    if q < s {
      Distribute(q, 1, size);
      MulMono(q + 1, s, size);
      assert false;
    } else if s < q {
      Distribute(s, 1, size);
      MulMono(s + 1, q, size);
      assert false;
    }
  }

  /** `a * size + b` with a digit `b < size` determines both digits. */
  lemma DigitsUnique(a: nat, b: nat, size: nat)
    requires b < size
    ensures (a * size + b) / size == a
    ensures (a * size + b) % size == b
  {
    var x := a * size + b;
    assert x == (x / size) * size + x % size;
    QuotientUnique(x / size, x % size, a, b, size);
  }

  /** A number with leading digit below `count` stays below `count * size`. */
  lemma DigitsBounded(a: nat, b: nat, count: nat, size: nat)
    requires a < count && b < size
    ensures a * size + b < count * size
  {
    assert (a + 1) * size <= count * size;
  }

  /** Splitting `x < count * size` into digits gives digits in range that rebuild `x`. */
  lemma SplitDigits(x: nat, count: nat, size: nat)
    requires x < count * size
    ensures size > 0
    ensures x / size < count && x % size < size
    ensures (x / size) * size + x % size == x
  {
    PositiveFactors(count, size);
    if count <= x / size {
      MulMono(count, x / size, size);
      assert false;
    }
  }

  /** The same in terms of the functions. */
  lemma SplitMulAdd(x: nat, count: nat, size: nat)
    requires x < count * size
    ensures size > 0 && Div(x, size) < count && Mod(x, size) < size && MulAdd(Div(x, size), size, Mod(x, size)) == x
  {
    SplitDigits(x, count, size);
  }

  lemma JoinMulAdd(a: nat, b: nat, count: nat, size: nat)
    requires a < count && b < size
    ensures Div(MulAdd(a, size, b), size) == a && Mod(MulAdd(a, size, b), size) == b && MulAdd(a, size, b) < count * size
  {
    DigitsUnique(a, b, size);
    DigitsBounded(a, b, count, size);
  }

  lemma NestedDiv(n: nat, a: nat, b: nat)
    requires a > 0 && b > 0
    ensures a * b > 0 && Div(Div(n, a), b) == Div(n, a * b)
  {
    var q, r := Div(n, a), Mod(n, a);
    var p, s := Div(q, b), Mod(q, b);
    assert n == q * a + r && q == p * b + s;
    Distribute(p * b, s, a);
    MulAssoc(p, b, a);
    assert (p * b) * a == p * (a * b);
    DigitsBounded(s, r, b, a);
    DigitsUnique(p, s * a + r, a * b);
  }

  function DivRoundUp(a: nat, b: nat): (q: nat)
    requires b > 0
    ensures q * b >= a
    ensures q > 0 ==> (q - 1) * b < a
  {
    var q := (a + b - 1) / b;
    assert (a + b - 1) == q * b + (a + b - 1) % b;
    q
  }
}
