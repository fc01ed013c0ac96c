/** Facts about multiplication and integer division that the solver does not find alone. */
module Arith {

  lemma MulLe(a: nat, b: nat, d: nat)
    requires a <= b
    ensures a * d <= b * d
  {
    var e: nat := b - a;
    assert b * d == a * d + e * d;
  }

  lemma MulLt(a: nat, b: nat, d: nat)
    requires a < b && d > 0
    ensures a * d < b * d
  {
    MulLe(a + 1, b, d);
    assert (a + 1) * d == a * d + d;
  }

  lemma MulCancelLt(a: nat, b: nat, d: nat)
    requires a * d < b * d
    ensures a < b
  {
    if b <= a {
      MulLe(b, a, d);
    }
  }

  lemma FloorDiv(x: nat, d: nat)
    requires d > 0
    ensures (x / d) * d <= x < (x / d + 1) * d
  {
    var q := x / d;
    assert x == q * d + x % d;
    assert (q + 1) * d == q * d + d;
  }

  lemma DivBelow(x: nat, d: nat, n: nat)
    requires d > 0 && x < n * d
    ensures x / d < n
  {
    var q := x / d;
    FloorDiv(x, d);
    assert q * d <= x;
    MulCancelLt(q, n, d);
  }

  lemma DivExact(i: nat, n: nat)
    requires n > 0
    ensures (i * n) / n == i && (i * n) % n == 0
  {
    var q := (i * n) / n;
    FloorDiv(i * n, n);
    MulCancelLt(q, i + 1, n);
    assert (i + 1) * n == i * n + n;
    MulCancelLt(i, q + 1, n);
    assert (q + 1) * n == q * n + n;
    assert i * n == q * n + (i * n) % n;
  }

  lemma RoundDown(x: nat, d: nat)
    requires d > 0
    ensures x - x % d == (x / d) * d && (x - x % d) % d == 0
  {
    assert x == (x / d) * d + x % d;
    DivExact(x / d, d);
  }

  lemma RealMulPos(a: real, b: real)
    requires a > 0.0 && b > 0.0
    ensures a * b > 0.0
  {
  }

  lemma RealMulNonNeg(a: real, b: real)
    requires a >= 0.0 && b > 0.0
    ensures a * b >= 0.0
  {
  }

  /** x / p in real arithmetic exceeds 0.6 exactly when 5x > 3p. */
  lemma RatioAbove(x: int, p: int)
    requires p > 0
    ensures (x as real) / (p as real) > 0.6 <==> 5 * x > 3 * p
  {
    var pr := p as real;
    var q := (x as real) / pr;
    assert q * pr == x as real;
    assert (q - 0.6) * pr == (x as real) - 0.6 * pr;
    if q > 0.6 {
      RealMulPos(q - 0.6, pr);
    } else {
      RealMulNonNeg(0.6 - q, pr);
    }
  }

  /** x / p lies within 0.01 of a exactly when 100 |x - a p| < p. */
  lemma RatioNear(x: int, p: int, a: int)
    requires p > 0
    ensures var diff := (x as real) / (p as real) - a as real;
      (-0.01 < diff < 0.01) <==> 100 * (if x - a * p < 0 then a * p - x else x - a * p) < p
  {
    var diff := (x as real) / (p as real) - a as real;
    var y := x - a * p;
    DiffTimes(x, p, a);
    BelowHundredth(diff, p as real, y as real);
    AboveMinusHundredth(diff, p as real, y as real);
  }

  /** With d * pr == y and pr > 0: d < 0.01 exactly when 100 y < pr. */
  lemma BelowHundredth(d: real, pr: real, y: real)
    requires pr > 0.0 && d * pr == y
    ensures d < 0.01 <==> 100.0 * y < pr
  {
    assert (0.01 - d) * pr == 0.01 * pr - y;
    if d < 0.01 {
      RealMulPos(0.01 - d, pr);
    } else {
      RealMulNonNeg(d - 0.01, pr);
    }
  }

  /** With d * pr == y and pr > 0: d > -0.01 exactly when 100 y > -pr. */
  lemma AboveMinusHundredth(d: real, pr: real, y: real)
    requires pr > 0.0 && d * pr == y
    ensures -0.01 < d <==> -pr < 100.0 * y
  {
    assert (d + 0.01) * pr == y + 0.01 * pr;
    if -0.01 < d {
      RealMulPos(d + 0.01, pr);
    } else {
      RealMulNonNeg(-0.01 - d, pr);
    }
  }

  /** Multiplying x / p - a back by p gives x - a p. */
  lemma DiffTimes(x: int, p: int, a: int)
    requires p > 0
    ensures ((x as real) / (p as real) - a as real) * (p as real) == (x - a * p) as real
  {
    var pr := p as real;
    var q := (x as real) / pr;
    assert q * pr == x as real;
    assert (a * p) as real == (a as real) * pr;
  }
}
