/** Facts about integer division that the solver does not find by itself. */
module Numbers {

  function Pow2(n: nat): (p: nat)
    ensures p >= 1
  {
    if n == 0 then 1 else 2 * Pow2(n - 1)
  }

  lemma LargeMultiple(d: nat, m: int)
    requires m != 0
    ensures d * m >= d || d * m <= 0 - d
  {
    if m > 0 {
      assert d * (m - 1) >= 0;
    } else {
      assert d * (-m - 1) >= 0;
    }
  }

  lemma DivModUnique(x: nat, d: nat, q: nat, r: nat)
    requires d >= 1 && x == d * q + r && r < d
    ensures x / d == q && x % d == r
  {
    assert d * (x / d - q) == r - x % d;
    if x / d != q {
      LargeMultiple(d, x / d - q);
    }
  }

  lemma HalfMod(x: nat, p: nat)
    requires p >= 1
    ensures x % (2 * p) == 2 * ((x / 2) % p) + x % 2
    ensures x / (2 * p) == x / 2 / p
  {
    var q, r := x / 2 / p, (x / 2) % p;
    assert x / 2 == p * q + r;
    assert x == (2 * p) * q + (2 * r + x % 2);
    DivModUnique(x, 2 * p, q, 2 * r + x % 2);
  }

  /** The quotient is q iff the number lies in the q-th block of length d. */
  lemma InBlock(x: nat, d: nat, q: nat)
    requires d >= 1
    ensures x / d == q <==> q * d <= x < q * d + d
  {
    if q * d <= x < q * d + d {
      DivModUnique(x, d, q, x - q * d);
    } else {
      assert x == (x / d) * d + x % d;
    }
  }

  lemma Scaled(x: int, y: int, p: nat)
    requires x <= y
    ensures x * p <= y * p
  {
    assert (y - x) * p >= 0;
  }

  lemma ScaledNext(x: int, y: int, p: nat)
    requires x < y
    ensures x * p + p <= y * p
  {
    Scaled(x + 1, y, p);
    assert (x + 1) * p == x * p + p;
  }

  /** Bounds on a number in multiples of the divisor are bounds on the quotient. */
  lemma QuotientBetween(x: nat, d: nat, lo: nat, hi: nat)
    requires d >= 1 && lo * d <= x < hi * d + d
    ensures lo <= x / d <= hi
  {
    var q := x / d;
    InBlock(x, d, q);
    if q < lo {
      ScaledNext(q, lo, d);
    }
    if hi < q {
      ScaledNext(hi, q, d);
    }
  }

  lemma QuotientGrows(x: nat, y: nat, d: nat)
    requires d >= 1 && x <= y
    ensures x / d <= y / d
  {
    InBlock(x, d, x / d);
    InBlock(y, d, y / d);
    if y / d < x / d {
      ScaledNext(y / d, x / d, d);
    }
  }
}
