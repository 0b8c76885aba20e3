// Python's `round` on an exact ratio: to the nearest integer, ties to even.

module Rounding {

  function HalfEven(a: int, b: int): (h: int)
    requires b > 0
  {
    var q, r := a / b, a % b;
    if 2 * r < b then q else if 2 * r > b then q + 1 else if q % 2 == 0 then q else q + 1
  }

  /** The result is a nearest integer, and the even one when two are nearest. */
  lemma HalfEvenNearest(a: int, b: int)
    requires b > 0
    ensures 2 * a - b <= 2 * (b * HalfEven(a, b)) <= 2 * a + b
    ensures 2 * (b * HalfEven(a, b)) == 2 * a - b || 2 * (b * HalfEven(a, b)) == 2 * a + b ==> HalfEven(a, b) % 2 == 0
  {
    var q, r := a / b, a % b;
    assert a == b * q + r && 0 <= r < b;
    assert b * (q + 1) == b * q + b;
  }

  lemma LeMul(b: int, x: int, y: int)
    requires b > 0 && x <= y
    ensures b * x <= b * y
  {
    var d := y - x;
    assert b * d >= 0 && b * d == b * y - b * x;
  }

  lemma LtCancel(b: int, x: int, y: int)
    requires b > 0 && b * x < b * y
    ensures x < y
  {
    if y <= x {
      LeMul(b, y, x);
    }
  }

  lemma HalfEvenExact(k: int, b: int)
    requires b > 0
    ensures HalfEven(b * k, b) == k
  {
    HalfEvenNearest(b * k, b);
    var h := HalfEven(b * k, b);
    assert b * (k - 1) == b * k - b && b * (k + 1) == b * k + b;
    LtCancel(b, k - 1, h);
    LtCancel(b, h, k + 1);
  }

  lemma HalfEvenMonotone(a: int, c: int, b: int)
    requires b > 0 && a <= c
    ensures HalfEven(a, b) <= HalfEven(c, b)
  {
    if a < c {
      var h, j := HalfEven(a, b), HalfEven(c, b);
      HalfEvenNearest(a, b);
      HalfEvenNearest(c, b);
      TimesSuccessor(b, j);
      LtCancel(b, h, j + 1);
    }
  }

  lemma TimesSuccessor(b: int, j: int)
    ensures b * (j + 1) == b * j + b
  {}

  lemma DivModUnique(k: int, d: int, q: int, r: int)
    requires d > 0 && 0 <= r < d && k == d * q + r
    ensures k / d == q && k % d == r
  {
    assert k == d * (k / d) + k % d;
    assert d * (q + 1) == d * q + d && d * (k / d + 1) == d * (k / d) + d;
    LtCancel(d, q, k / d + 1);
    LtCancel(d, k / d, q + 1);
  }

  /** The quotient steps up exactly at the multiples. */
  lemma DivStep(k: int, d: int)
    requires k >= 1 && d > 0
    ensures k / d == (k - 1) / d + (if k % d == 0 then 1 else 0)
  {
    var q, r := (k - 1) / d, (k - 1) % d;
    assert k - 1 == d * q + r;
    if r + 1 == d {
      assert d * (q + 1) == d * q + d;
      DivModUnique(k, d, q + 1, 0);
    } else {
      DivModUnique(k, d, q, r + 1);
    }
  }
}
