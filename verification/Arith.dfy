/** Powers of two and the few facts about products and Euclidean division used throughout. */
module Arith {
  /** The number of values of a 32-bit word. */
  const WORD: nat := 0x1_0000_0000

  function Pow2(n: nat): (r: nat)
    ensures r >= 1
  {
    if n == 0 then 1 else 2 * Pow2(n - 1)
  }

  lemma MulMonotone(r: int, a: int, b: int)
    requires 0 <= r && a <= b
    ensures r * a <= r * b
  {
  }

  function Times(a: nat, b: nat): (r: nat)
    ensures r == a * b
  {
    MulMonotone(a, 0, b);
    a * b
  }

  lemma MulDistribute(r: int, a: int, b: int)
    ensures r * (a + b) == r * a + r * b
  {
  }

  /** Quotient and remainder are determined by their defining equation. */
  lemma DivModUnique(n: int, d: int, q: int, r: int)
    requires 0 <= r < d && n == d * q + r
    ensures n / d == q && n % d == r
  {
    var q' := n / d;
    assert n == d * q' + n % d;
    if q' < q {
      MulMonotone(d, q' + 1, q);
      MulDistribute(d, q', 1);
    } else if q < q' {
      MulMonotone(d, q + 1, q');
      MulDistribute(d, q, 1);
    }
  }

  /** Bit k of a number. */
  function Bit(n: nat, k: nat): (r: nat)
    ensures r <= 1
  {
    n / Pow2(k) % 2
  }

  /** One more bit of a number: how quotient and remainder by a power of two grow. */
  lemma NextBit(n: nat, k: nat)
    ensures n / Pow2(k + 1) == n / Pow2(k) / 2
    ensures n % Pow2(k + 1) == n % Pow2(k) + Pow2(k) * Bit(n, k)
  {
    var p, q, r := Pow2(k), n / Pow2(k), n % Pow2(k);
    var b, h := q % 2, q / 2;
    MulDistribute(p, 2 * h, b);
    assert p * (2 * h) == Pow2(k + 1) * h;
    assert b == 0 || b == 1;
    DivModUnique(n, Pow2(k + 1), h, p * b + r);
  }

  /** Dividing twice is dividing by the product. */
  lemma DivTwice(x: int, d: int, e: int)
    requires d > 0 && e > 0
    ensures d * e > 0 && x / d / e == x / (d * e)
  {
    var q, r := x / d, x % d;
    var h, b := q / e, q % e;
    MulMonotone(d, b, e - 1);
    MulMonotone(d, 0, b);
    MulDistribute(d, e - 1, 1);
    MulDistribute(d, e * h, b);
    MulAssociates(d, e, h);
    MulMonotone(d, 1, e);
    DivModUnique(x, d * e, h, d * b + r);
  }

  lemma MulAssociates(a: int, b: int, c: int)
    ensures a * (b * c) == a * b * c
  {
  }

  lemma PowersOfTwo()
    ensures Pow2(0) == 1 && Pow2(1) == 2 && Pow2(16) == 0x1_0000
    ensures Pow2(31) == 0x8000_0000 && Pow2(32) == 0x1_0000_0000 && Pow2(33) == 0x2_0000_0000
  {
    assert Pow2(8) == 0x100;
    assert Pow2(16) == 0x1_0000;
    assert Pow2(24) == 0x100_0000;
  }
}
