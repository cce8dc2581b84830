/** Facts about products, quotients and remainders that the number proofs share. */
module Arith {
  lemma NoMultiple(e: int, d: nat, z: int)
    requires e * d == z && -(d as int) < z < d
    ensures e == 0
  {
    SignOfProduct(e - 1, d);
    SignOfProduct(-e - 1, d);
    assert (e - 1) * d == z - d && (-e - 1) * d == -z - d;
  }

  lemma SignOfProduct(a: int, b: nat)
    ensures a >= 0 ==> a * b >= 0
  {}

  /** Quotient and remainder are determined by x == q * d + r with r in range. */
  lemma QuotientIs(x: int, d: nat, q: int, r: nat)
    requires r < d && x == q * d + r
    ensures x / d == q && x % d == r
  {
    var e := q - x / d;
    var y := x % d;
    assert e * d == y - r by {
      assert x == x / d * d + y;
      assert e * d == q * d - x / d * d;
    }
    NoMultiple(e, d, y - r);
  }

  lemma ModSmall(x: nat, d: nat)
    requires x < d
    ensures x % d == x && x / d == 0
  {
    QuotientIs(x, d, 0, x);
  }

  lemma FloorShift(x: int, k: int, d: nat)
    requires d > 0
    ensures (x + k * d) / d == x / d + k && (x + k * d) % d == x % d
  {
    QuotientIs(x + k * d, d, x / d + k, x % d);
  }

  lemma Regroup(v: nat, q: nat, pw: nat, po: nat)
    ensures (v + q * pw) * po == v * po + q * (pw * po)
  {}

  lemma Spread(r: nat, b: nat, p: nat, q: nat)
    requires r < p && b < q
    ensures b * p <= r + b * p < q * p
  {
    assert (q - 1 - b) * p >= 0;
    assert (q - 1 - b) * p == q * p - p - b * p;
  }

  lemma DivStep(x: nat, a: nat, b: nat)
    requires a > 0 && b > 0
    ensures x / a / b == x / (a * b) && x / a % b * a + x % a == x % (a * b)
  {
    var q, r := x / a / b, x / a % b;
    assert x / a == q * b + r;
    assert x == (x / a) * a + x % a;
    assert x == q * (a * b) + (r * a + x % a) by {
      assert (q * b + r) * a == q * (a * b) + r * a;
    }
    Spread(x % a, r, a, b);
    assert b * a == a * b && a * b > 0;
    QuotientIs(x, a * b, q, r * a + x % a);
    assert x == x / (a * b) * (a * b) + x % (a * b);
  }
}
