/** Facts about products, quotients and remainders of integers. */
module Arithmetic {
  lemma MulLe(x: int, y: int, k: nat)
    requires x <= y
    ensures x * k <= y * k
  {
  }

  lemma DivBounds(a: nat, b: nat, lo: nat)
    requires b > 0 && lo * b <= a
    ensures lo <= a / b <= a
  {
    var q := a / b;
    assert a == q * b + a % b;
    assert (q + 1) * b == q * b + b;
    if q < lo {
      MulLe(q + 1, lo, b);
    }
    MulLe(1, b, q);
  }

  lemma DivMonotone(a: nat, b: nat, c: nat)
    requires a <= b && c > 0
    ensures a / c <= b / c
  {
    if b / c < a / c {
      MulLe(b / c + 1, a / c, c);
    }
  }

  lemma DivAntitone(a: nat, b: nat, c: nat)
    requires 0 < b <= c
    ensures a / c <= a / b
  {
    MulLe(b, c, a / c);
    assert (a / c) * b <= (a / c) * c <= a;
    DivBounds(a, b, a / c);
  }

  lemma MulDivCancel(a: nat, b: nat)
    requires b > 0
    ensures a * b / b == a
  {
    assert (a + 1) * b == a * b + b;
    DivUnique(a * b, b, a);
  }

  /** x is the rounded quotient exactly when it brackets a. */
  lemma DivUnique(a: nat, b: nat, q: nat)
    requires b > 0 && q * b <= a < (q + 1) * b
    ensures a / b == q
  {
    DivBounds(a, b, q);
    if a / b > q {
      MulLe(q + 1, a / b, b);
    }
  }

  lemma SuccMul(x: int, b: int)
    ensures (x + 1) * b == x * b + b
  {
  }

  lemma SuccScale(x: int, b: int, t: int)
    ensures x * b * t == x * t * b
    ensures (x + 1) * b * t == x * t * b + b * t
  {
    SuccMul(x, b);
    assert x * b * t == x * (b * t) == x * (t * b) == x * t * b;
    assert (x * b + b) * t == x * b * t + b * t;
  }

  lemma QuotientBounds(a: nat, b: nat)
    requires b > 0
    ensures (a / b) * b <= a < (a / b + 1) * b
  {
    assert a == (a / b) * b + a % b;
    assert (a / b + 1) * b == (a / b) * b + b;
  }

  lemma ScaleLe(x: int, y: int, k: nat)
    requires x <= y
    ensures x * k * k <= y * k * k
  {
    MulLe(x, y, k);
    MulLe(x * k, y * k, k);
  }

  lemma DivCross(a1: nat, b1: nat, a2: nat, b2: nat)
    requires b1 > 0 && b2 > 0 && a1 * b2 <= a2 * b1
    ensures a1 / b1 <= a2 / b2
  {
    var q := a1 / b1;
    assert q * b1 <= a1;
    MulLe(q * b1, a1, b2);
    assert q * b2 * b1 == q * b1 * b2;
    assert (a2 + 1) * b1 == a2 * b1 + b1;
    if q * b2 > a2 {
      MulLe(a2 + 1, q * b2, b1);
    }
    DivBounds(a2, b2, q);
  }

  lemma ModOf(a: int, b: int, k: int, p: nat)
    requires p > 0 && a == b + p * k
    ensures a % p == b % p
  {
    var q, r := b / p, b % p;
    assert a == p * (q + k) + r;
    EuclidUnique(a, q + k, r, p);
  }

  lemma EuclidUnique(a: int, q: int, r: int, p: nat)
    requires a == p * q + r && 0 <= r < p
    ensures a / p == q && a % p == r
  {
    var q', r' := a / p, a % p;
    assert a == p * q' + r' && 0 <= r' < p;
    var k := q - q';
    assert p * k == p * q - p * q' && p * -k == p * q' - p * q;
    SmallMultiple(k, p);
  }

  lemma SmallMultiple(k: int, p: nat)
    requires p * k < p && p * -k < p
    ensures k == 0
  {
    if k >= 1 {
      MulLe(1, k, p);
    } else if k <= -1 {
      MulLe(1, -k, p);
    }
  }

  lemma ModDifference(a: int, b: int, p: nat) returns (k: int)
    requires p > 0 && a % p == b % p
    ensures a == b + p * k
  {
    k := a / p - b / p;
    assert p * k == p * (a / p) - p * (b / p);
  }

  /** A divisor of a divisor is a divisor. */
  lemma DividesThrough(d: nat, f: nat, n: nat)
    requires d > 0 && f > 0 && f % d == 0 && n % f == 0
    ensures n % d == 0
  {
    var a, b := f / d, n / f;
    assert f == d * a && n == f * b;
    assert n == d * (a * b);
    EuclidUnique(n, a * b, 0, d);
  }

  function Pow2(n: nat): (r: nat)
    ensures r > 0
  {
    if n == 0 then 1 else 2 * Pow2(n - 1)
  }

  lemma {:induction false} Pow2Monotone(a: nat, b: nat)
    requires a <= b
    ensures Pow2(a) <= Pow2(b)
  {
    if a < b {
      Pow2Monotone(a, b - 1);
    }
  }

  lemma Pow2Split(m: nat)
    ensures Pow2(m + 7) == 128 * Pow2(m)
  {
    assert Pow2(m + 2) == 4 * Pow2(m);
    assert Pow2(m + 4) == 4 * Pow2(m + 2);
    assert Pow2(m + 6) == 4 * Pow2(m + 4);
  }

  lemma Pow2Next(m: nat)
    ensures Pow2(m + 1) == 2 * Pow2(m)
  {
  }
}
