/** The prime table, and arithmetic modulo a prime. */
module Primes {
  import opened Arithmetic
  import opened Primitives

  predicate IsPrime(n: nat) {
    n >= 2 && forall d :: 2 <= d < n ==> n % d != 0
  }

  // ---------- Inverses ----------

  /** The extended Euclidean algorithm: g == a * x + b * y. */
  function ExtendedGcd(a: nat, b: nat): (int, int, int)
    decreases b
  {
    if b == 0 then (a, 1, 0)
    else
      var (g, x, y) := ExtendedGcd(b, a % b);
      (g, y, x - a / b * y)
  }

  lemma {:induction false} ExtendedGcdMeans(a: nat, b: nat)
    requires a > 0 || b > 0
    ensures var (g, x, y) := ExtendedGcd(a, b); g > 0 && g == a * x + b * y && a % g == 0 && b % g == 0
    decreases b
  {
    if b > 0 {
      ExtendedGcdMeans(b, a % b);
      var (g, x, y) := ExtendedGcd(b, a % b);
      var q, r := a / b, a % b;
      GcdStep(a, b, q, r, g, x, y);
    } else {
      EuclidUnique(a, 1, 0, a);
    }
  }

  lemma GcdStep(a: int, b: int, q: int, r: int, g: nat, x: int, y: int)
    requires a == b * q + r && g > 0 && g == b * x + r * y && b % g == 0 && r % g == 0
    ensures g == a * y + b * (x - q * y) && a % g == 0
  {
    assert a * y == b * q * y + r * y;
    assert b * (x - q * y) == b * x - b * q * y;
    var c, d := b / g, r / g;
    assert b == g * c && r == g * d;
    assert g * c * q == g * (c * q);
    assert a == g * (c * q + d);
    EuclidUnique(a, c * q + d, 0, g);
  }

  /** BN_mod_inverse. */
  function ModInverse(a: nat, p: nat): Option<nat>
    requires p > 1
  {
    var (g, x, y) := ExtendedGcd(a % p, p);
    if g == 1 then Some(x % p) else None
  }

  /** Every number that a prime does not divide has an inverse modulo that prime. */
  lemma InverseExists(a: nat, p: nat)
    requires IsPrime(p) && a % p != 0
    ensures ModInverse(a, p).Some? && a * ModInverse(a, p).value % p == 1
  {
    var r := a % p;
    ExtendedGcdMeans(r, p);
    var (g, x, y) := ExtendedGcd(r, p);
    hide ExtendedGcd;
    DivisorIsSmall(g, r);
    assert g == 1;
    InverseMeans(a, r, p, x, y);
  }

  lemma DivisorIsSmall(g: nat, r: nat)
    requires g > 0 && r > 0 && r % g == 0
    ensures g <= r
  {
    var c := r / g;
    assert r == g * c;
    MulLe(1, c, g);
  }

  lemma OneModulo(a: int, k: int, p: nat)
    requires p > 1 && a == 1 + p * k
    ensures a % p == 1
  {
    EuclidUnique(a, k, 1, p);
  }

  lemma InverseMeans(a: nat, r: nat, p: nat, x: int, y: int)
    requires p > 1 && r == a % p && 1 == r * x + p * y
    ensures a * (x % p) % p == 1
  {
    var q, u, v := a / p, x / p, x % p;
    InverseRing(a, r, p, q, u, v, x, y);
    OneModulo(a * v, q * v - y - r * u, p);
  }

  lemma InverseRing(a: int, r: int, p: int, q: int, u: int, v: int, x: int, y: int)
    requires a == p * q + r && x == p * u + v && 1 == r * x + p * y
    ensures a * v == 1 + p * (q * v - y - r * u)
  {
    assert r * x == r * (p * u) + r * v && r * (p * u) == p * (r * u);
    assert a * v == p * q * v + r * v && p * q * v == p * (q * v);
    assert p * (q * v - y - r * u) == p * (q * v) - p * y - p * (r * u);
  }

  lemma ProductOfOnes(x: int, y: int, p: nat)
    requires p > 1 && x % p == 1 && y % p == 1
    ensures x * y % p == 1
  {
    var j, k := x / p, y / p;
    OnesRing(x, y, p, j, k);
    OneModulo(x * y, j * y + k, p);
  }

  lemma OnesRing(x: int, y: int, p: int, j: int, k: int)
    requires x == p * j + 1 && y == p * k + 1
    ensures x * y == 1 + p * (j * y + k)
  {
    assert x * y == p * j * y + y && p * j * y == p * (j * y);
    assert p * (j * y + k) == p * (j * y) + p * k;
  }

  /** Solving a * m + delta == 0 modulo p with the inverse of a. */
  lemma SolvedBy(a: int, inverse: int, p: nat, delta: int, m: int)
    requires p > 1 && a * inverse % p == 1
    ensures (a * m + delta) % p == 0 <==> m % p == inverse * (p - delta) % p
  {
    var q := a * inverse / p;
    assert a * inverse == p * q + 1;
    if (a * m + delta) % p == 0 {
      SolutionIsUnique(a, inverse, p, delta, m, q, (a * m + delta) / p);
    }
    if m % p == inverse * (p - delta) % p {
      var u := ModDifference(m, inverse * (p - delta), p);
      SolutionSolves(a, inverse, p, delta, m, q, u);
    }
  }

  lemma SolutionIsUnique(a: int, inverse: int, p: nat, delta: int, m: int, q: int, t: int)
    requires p > 0 && a * inverse == p * q + 1 && a * m + delta == p * t
    ensures m % p == inverse * (p - delta) % p
  {
    assert inverse * (a * m) == (a * inverse) * m;
    assert inverse * (a * m + delta) == inverse * (a * m) + inverse * delta;
    assert inverse * (p * t) == p * (t * inverse);
    assert (p * q + 1) * m == p * (q * m) + m;
    assert inverse * (p - delta) == p * inverse - inverse * delta;
    assert p * (t * inverse - q * m - inverse) == p * (t * inverse) - p * (q * m) - p * inverse;
    ModOf(m, inverse * (p - delta), t * inverse - q * m - inverse, p);
  }

  lemma SolutionSolves(a: int, inverse: int, p: nat, delta: int, m: int, q: int, u: int)
    requires p > 0 && a * inverse == p * q + 1 && m == inverse * (p - delta) + p * u
    ensures (a * m + delta) % p == 0
  {
    assert a * m == a * (inverse * (p - delta)) + a * (p * u);
    assert a * (inverse * (p - delta)) == (a * inverse) * (p - delta);
    assert (p * q + 1) * (p - delta) == p * (q * (p - delta)) + p - delta;
    assert a * (p * u) == p * (a * u);
    assert p * (q * (p - delta) + 1 + a * u) == p * (q * (p - delta)) + p + p * (a * u);
    EuclidUnique(a * m + delta, q * (p - delta) + 1 + a * u, 0, p);
  }

  // ---------- The prime table ----------

  /** d divides n and is no larger than the square root of n. */
  predicate IsLowFactor(d: nat, n: nat) {
    d >= 2 && d * d <= n && n % d == 0
  }

  /** Some factor below f shows that n is composite. */
  ghost predicate HasFactor(n: nat, f: nat) {
    exists d :: 2 <= d < f && IsLowFactor(d, n)
  }

  /** A composite number adds nothing: its own factors were used already. */
  lemma SkipComposite(n: nat, f: nat)
    requires f >= 2 && HasFactor(f, f) && IsLowFactor(f, n)
    ensures HasFactor(n, f)
  {
    var d :| 2 <= d < f && IsLowFactor(d, f);
    DividesThrough(d, f, n);
    MulLe(1, f, f);
    assert IsLowFactor(d, n);
  }

  /** Once the factors go up to the square root, what has none is prime. */
  lemma NoFactorIsPrime(n: nat, f: nat)
    requires n >= 2 && n < f * f
    ensures HasFactor(n, f) <==> !IsPrime(n)
  {
    if HasFactor(n, f) {
      FactorMeansComposite(n, f);
    }
    if !IsPrime(n) {
      var d :| 2 <= d < n && n % d == 0;
      LowFactorOf(n, d, f);
    }
  }

  lemma FactorMeansComposite(n: nat, f: nat)
    requires HasFactor(n, f)
    ensures !IsPrime(n)
  {
    var d :| 2 <= d < f && IsLowFactor(d, n);
    MulLe(2, d, d);
    assert n % d == 0 && d < n;
  }

  /** One of a factor and its cofactor is low. */
  lemma LowFactorOf(n: nat, d: nat, f: nat)
    requires 2 <= d < n < f * f && n % d == 0
    ensures HasFactor(n, f)
  {
    var e := n / d;
    assert n == d * e;
    CoFactor(n, d, e);
    var low := if d * d <= n then d else e;
    SquaresGrow(f, low);
    assert IsLowFactor(low, n);
  }

  lemma SquaresGrow(f: nat, low: nat)
    requires low * low < f * f
    ensures low < f
  {
    if low >= f {
      MulLe(f, low, low);
      MulLe(f, low, f);
    }
  }

  lemma CoFactor(n: nat, d: nat, e: nat)
    requires n == d * e && 2 <= d < n
    ensures e >= 2 && n % e == 0 && (d * d > n ==> e * e <= n)
  {
    assert n == e * d;
    if e <= 1 {
      MulLe(e, 1, d);
    }
    EuclidUnique(n, d, 0, e);
    if d * d > n {
      if e >= d {
        MulLe(d, e, d);
      }
      MulLe(e, d, e);
    }
  }

  /** The next multiple of f after c is c + f. */
  lemma BetweenMultiples(c: nat, f: nat, n: nat)
    requires f > 0 && c % f == 0 && c < n < c + f
    ensures n % f != 0
  {
    var q := c / f;
    assert c == f * q;
    EuclidUnique(n, q, n - c, f);
  }

  lemma NextMultiple(c: nat, f: nat)
    requires f > 0 && c % f == 0
    ensures (c + f) % f == 0
  {
    ModOf(c + f, c, 1, f);
  }

  /** Below c, and not only below f, the multiples of f are marked too. */
  ghost predicate MarkedTo(composite: seq<bool>, f: nat, c: nat) {
    forall n :: 2 <= n < |composite| ==> (composite[n] <==> HasFactor(n, f) || (n < c && IsLowFactor(f, n)))
  }

  lemma MarkNext(composite: seq<bool>, f: nat, c: nat)
    requires f >= 2 && f * f <= c < |composite| && c % f == 0 && MarkedTo(composite, f, c)
    ensures MarkedTo(composite[c := true], f, c + f)
  {
    hide HasFactor;
    var after := composite[c := true];
    assert IsLowFactor(f, c);
    forall n | 2 <= n < |after|
      ensures after[n] <==> HasFactor(n, f) || (n < c + f && IsLowFactor(f, n))
    {
      if c < n < c + f {
        BetweenMultiples(c, f, n);
      }
    }
  }

  lemma FactorsUpTo(n: nat, f: nat)
    requires f >= 2
    ensures HasFactor(n, f + 1) <==> HasFactor(n, f) || IsLowFactor(f, n)
  {
    if HasFactor(n, f + 1) {
      var d :| 2 <= d < f + 1 && IsLowFactor(d, n);
      assert d < f || d == f;
    }
  }

  /** All factors below f have been dealt with. */
  ghost predicate Marked(composite: seq<bool>, f: nat) {
    forall n :: 2 <= n < |composite| ==> (composite[n] <==> HasFactor(n, f))
  }

  lemma MarkedAll(composite: seq<bool>, f: nat, c: nat)
    requires f >= 2 && c >= |composite| && MarkedTo(composite, f, c)
    ensures Marked(composite, f + 1)
  {
    hide HasFactor;
    forall n: nat | 2 <= n < |composite|
      ensures composite[n] <==> HasFactor(n, f + 1)
    {
      FactorsUpTo(n, f);
    }
  }

  lemma MarkedSkip(composite: seq<bool>, f: nat)
    requires 2 <= f < |composite| && Marked(composite, f) && composite[f]
    ensures Marked(composite, f + 1)
  {
    hide HasFactor;
    forall n: nat | 2 <= n < |composite|
      ensures composite[n] <==> HasFactor(n, f + 1)
    {
      FactorsUpTo(n, f);
      if IsLowFactor(f, n) {
        SkipComposite(n, f);
      }
    }
  }

  method MarkMultiples(composite: array<bool>, f: nat)
    requires f >= 2 && Marked(composite[..], f)
    modifies composite
    ensures Marked(composite[..], f + 1)
  {
    hide Marked, MarkedTo;
    var c := f * f;
    StartMarking(composite[..], f);
    while c < composite.Length
      invariant f * f <= c && c % f == 0 && MarkedTo(composite[..], f, c)
    {
      MarkNext(composite[..], f, c);
      NextMultiple(c, f);
      ghost var before := composite[..];
      composite[c] := true;
      assert composite[..] == before[c := true];
      c := c + f;
    }
    MarkedAll(composite[..], f, c);
  }

  lemma StartMarking(composite: seq<bool>, f: nat)
    requires f >= 2 && Marked(composite, f)
    ensures f * f % f == 0 && MarkedTo(composite, f, f * f)
  {
    EuclidUnique(f * f, f, 0, f);
    hide HasFactor;
  }

  /** GeneratePrimeTable: exactly the primes below the limit, in order. */
  method GeneratePrimeTable(limit: nat) returns (primes: seq<nat>)
    ensures forall i :: 0 <= i < |primes| ==> IsPrime(primes[i]) && primes[i] < limit
    ensures forall p: nat :: IsPrime(p) && p < limit ==> p in primes
    ensures forall i, j :: 0 <= i < j < |primes| ==> primes[i] < primes[j]
  {
    hide IsPrime, Marked, HasFactor;
    var composite := new bool[limit](_ => false);
    NothingMarked(composite[..]);
    var factor := 2;
    while factor * factor < limit
      invariant 2 <= factor && Marked(composite[..], factor)
      decreases limit - factor
    {
      MulLe(1, factor, factor);
      if composite[factor] {
        MarkedSkip(composite[..], factor);
      } else {
        MarkMultiples(composite, factor);
      }
      factor := factor + 1;
    }
    primes := [];
    SmallNumbers();
    var n := 2;
    while n < limit
      invariant 2 <= n && Marked(composite[..], factor)
      invariant forall i :: 0 <= i < |primes| ==> IsPrime(primes[i]) && primes[i] < n && primes[i] < limit
      invariant forall p: nat :: IsPrime(p) && p < n && p < limit ==> p in primes
      invariant forall i, j :: 0 <= i < j < |primes| ==> primes[i] < primes[j]
    {
      UnmarkedIsPrime(composite[..], factor, n);
      if !composite[n] {
        primes := primes + [n];
      }
      n := n + 1;
    }
  }

  lemma NothingMarked(composite: seq<bool>)
    requires forall n :: 0 <= n < |composite| ==> !composite[n]
    ensures Marked(composite, 2)
  {
  }

  lemma SmallNumbers()
    ensures forall p: nat :: IsPrime(p) ==> p >= 2
  {
  }

  lemma UnmarkedIsPrime(composite: seq<bool>, f: nat, n: nat)
    requires 2 <= n < |composite| <= f * f && Marked(composite, f)
    ensures !composite[n] <==> IsPrime(n)
  {
    NoFactorIsPrime(n, f);
  }
}
