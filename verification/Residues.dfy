/** The quadratic character of 2: half-way to p - 1, the powers of 2 modulo an odd prime p reach 1 or -1, and p modulo 8
    says which.  The product of the even numbers below p is computed in two ways, after Gauss. */
module Residues {
  import opened Arithmetic
  import opened Primes

  // ---------- Congruences ----------

  ghost predicate Congruent(a: int, b: int, p: nat)
    requires p > 0
  {
    (a - b) % p == 0
  }

  lemma CongruentBy(a: int, b: int, k: int, p: nat)
    requires p > 0 && a == b + p * k
    ensures Congruent(a, b, p)
  {
    EuclidUnique(a - b, k, 0, p);
  }

  lemma CongruentTimes(a: int, b: int, c: int, d: int, p: nat)
    requires p > 0 && Congruent(a, b, p) && Congruent(c, d, p)
    ensures Congruent(a * c, b * d, p)
  {
    var j, k := (a - b) / p, (c - d) / p;
    assert a == b + p * j && c == d + p * k;
    assert a * c == b * c + p * (j * c) by {
      assert (b + p * j) * c == b * c + p * j * c;
    }
    assert b * c == b * d + p * (b * k) by {
      assert b * (d + p * k) == b * d + b * (p * k);
      assert b * (p * k) == p * (b * k);
    }
    assert p * (j * c) + p * (b * k) == p * (j * c + b * k);
    CongruentBy(a * c, b * d, j * c + b * k, p);
  }

  /** A prime that divides a product divides a factor. */
  lemma PrimeDivides(a: nat, b: int, p: nat)
    requires IsPrime(p) && a * b % p == 0 && a % p != 0
    ensures b % p == 0
  {
    InverseExists(a, p);
    var x := ModInverse(a, p).value;
    hide ModInverse, IsPrime;
    var q, t := a * x / p, a * b / p;
    assert a * x == p * q + 1 && a * b == p * t;
    assert b * (p * q + 1) == p * (b * q) + b;
    assert b * (a * x) == x * (a * b);
    assert x * (p * t) == p * (x * t);
    assert p * (x * t) - p * (b * q) == p * (x * t - b * q);
    EuclidUnique(b, x * t - b * q, 0, p);
  }

  // ---------- Products ----------

  function Factorial(n: nat): nat {
    if n == 0 then 1 else n * Factorial(n - 1)
  }

  /** 2 * 4 * ... * 2n. */
  function Evens(n: nat): nat {
    if n == 0 then 1 else 2 * n * Evens(n - 1)
  }

  /** 1 * 3 * ... * (2n - 1). */
  function Odds(n: nat): nat {
    if n == 0 then 1 else (2 * n - 1) * Odds(n - 1)
  }

  /** The largest n of the even numbers up to 2h. */
  function TopEvens(h: nat, n: nat): nat
    requires n <= h
  {
    if n == 0 then 1 else 2 * (h - n + 1) * TopEvens(h, n - 1)
  }

  /** 1 or -1. */
  function Sign(n: nat): int {
    if n % 2 == 0 then 1 else -1
  }

  lemma {:induction false} EvensAreDoubled(n: nat)
    ensures Evens(n) == Pow2(n) * Factorial(n)
  {
    if n > 0 {
      EvensAreDoubled(n - 1);
      DoubleProduct(n, Pow2(n - 1), Factorial(n - 1));
    }
  }

  lemma DoubleProduct(n: int, p: int, f: int)
    ensures 2 * p * (n * f) == 2 * n * (p * f)
  {
    Swap(p, n, f);
    Group(2, p, n * f);
    Group(2, n, p * f);
  }

  /** A factorial is its odd factors and its even ones. */
  lemma {:induction false} FactorialSplits(n: nat)
    ensures Factorial(n) == Odds((n + 1) / 2) * Evens(n / 2)
  {
    if n > 0 {
      FactorialSplits(n - 1);
      var k := n / 2;
      if n % 2 == 0 {
        assert (n - 1 + 1) / 2 == k && (n - 1) / 2 == k - 1 && (n + 1) / 2 == k;
        Swap(n, Odds(k), Evens(k - 1));
      } else {
        assert (n - 1 + 1) / 2 == k && (n - 1) / 2 == k && (n + 1) / 2 == k + 1;
        assert n == 2 * (k + 1) - 1;
        Group(n, Odds(k), Evens(k));
      }
    }
  }

  lemma Swap(x: int, y: int, z: int)
    ensures x * (y * z) == y * (x * z)
  {
  }

  lemma Group(x: int, y: int, z: int)
    ensures x * (y * z) == (x * y) * z
  {
  }

  lemma {:induction false} EvensSplit(h: nat, n: nat)
    requires n <= h
    ensures Evens(h) == TopEvens(h, n) * Evens(h - n)
  {
    if n > 0 {
      EvensSplit(h, n - 1);
      var k := h - n + 1;
      assert Evens(k) == 2 * k * Evens(k - 1);
      Swap(TopEvens(h, n - 1), 2 * k, Evens(k - 1));
      Group(2 * k, TopEvens(h, n - 1), Evens(k - 1));
    }
  }

  /** Modulo 2h + 1 the large even numbers are the negatives of the odd ones. */
  lemma {:induction false} TopEvensAreOdds(h: nat, n: nat)
    requires n <= h
    ensures Congruent(TopEvens(h, n), Sign(n) * Odds(n), 2 * h + 1)
  {
    if n == 0 {
      CongruentBy(1, 1, 0, 2 * h + 1);
    } else {
      TopEvensAreOdds(h, n - 1);
      hide Congruent;
      EvenIsMinusOdd(h, n);
      CongruentTimes(2 * (h - n + 1), -(2 * n - 1), TopEvens(h, n - 1), Sign(n - 1) * Odds(n - 1), 2 * h + 1);
      MinusTimes(2 * n - 1, Sign(n - 1), Odds(n - 1));
      NextSign(n);
      hide Sign;
    }
  }

  lemma EvenIsMinusOdd(h: nat, n: nat)
    ensures Congruent(2 * (h - n + 1), -(2 * n - 1), 2 * h + 1)
  {
    CongruentBy(2 * (h - n + 1), -(2 * n - 1), 1, 2 * h + 1);
  }

  lemma NextSign(n: nat)
    requires n > 0
    ensures Sign(n) == -Sign(n - 1)
  {
  }

  lemma MinusTimes(x: int, s: int, y: int)
    ensures -x * (s * y) == -s * (x * y)
  {
  }

  lemma {:induction false} FactorialNotZero(n: nat, p: nat)
    requires IsPrime(p) && n < p
    ensures Factorial(n) % p != 0
  {
    if n > 0 {
      FactorialNotZero(n - 1, p);
      EuclidUnique(n, 0, n, p);
      if n * Factorial(n - 1) % p == 0 {
        PrimeDivides(n, Factorial(n - 1), p);
      }
    } else {
      EuclidUnique(1, 0, 1, p);
    }
  }

  /** 2^h is 1 or -1 modulo the prime 2h + 1, by the number of odd numbers up to h. */
  lemma HalfPower(h: nat)
    requires IsPrime(2 * h + 1)
    ensures Congruent(Pow2(h), Sign((h + 1) / 2), 2 * h + 1)
  {
    var p, n := 2 * h + 1, (h + 1) / 2;
    var f := Factorial(h);
    EvensAreDoubled(h);
    EvensSplit(h, n);
    TopEvensAreOdds(h, n);
    FactorialSplits(h);
    assert h - n == h / 2;
    CongruentBy(Evens(h / 2), Evens(h / 2), 0, p);
    hide Congruent, IsPrime, Evens, Odds, TopEvens, Factorial, Pow2, Sign;
    CongruentTimes(TopEvens(h, n), Sign(n) * Odds(n), Evens(h / 2), Evens(h / 2), p);
    Group(Sign(n), Odds(n), Evens(h / 2));
    assert Congruent(Pow2(h) * f, Sign(n) * f, p);
    FactorialNotZero(h, p);
    Cancel(f, Pow2(h), Sign(n), p);
  }

  lemma Cancel(f: nat, a: int, b: int, p: nat)
    requires IsPrime(p) && f % p != 0 && Congruent(a * f, b * f, p)
    ensures Congruent(a, b, p)
  {
    assert f * (a - b) == a * f - b * f;
    PrimeDivides(f, a - b, p);
  }

  /** The number of odd numbers up to h is even exactly if 2h + 1 is 1 or 7 modulo 8. */
  lemma SignBy8(h: nat)
    ensures var p := 2 * h + 1; Sign((h + 1) / 2) == if p % 8 == 1 || p % 8 == 7 then 1 else -1
  {
    var q, r := h / 4, h % 4;
    assert 2 * h + 1 == 8 * q + (2 * r + 1);
    EuclidUnique(2 * h + 1, q, 2 * r + 1, 8);
    assert (h + 1) / 2 == 2 * q + (r + 1) / 2;
  }

  /** Euler's criterion for 2. */
  lemma CharacterOfTwo(p: nat)
    requires IsPrime(p) && p > 2
    ensures p % 2 == 1
    ensures Pow2((p - 1) / 2) % p == if p % 8 == 1 || p % 8 == 7 then 1 else p - 1
  {
    assert p % 2 != 0;
    hide IsPrime, Pow2, Sign, Congruent;
    var h := (p - 1) / 2;
    assert p == 2 * h + 1;
    HalfPower(h);
    SignBy8(h);
    SignedRemainder(Pow2(h), Sign((h + 1) / 2), p);
  }

  lemma SignedRemainder(a: int, s: int, p: nat)
    requires p > 1 && Congruent(a, s, p) && (s == 1 || s == -1)
    ensures a % p == if s == 1 then 1 else p - 1
  {
    var k := (a - s) / p;
    assert a == p * k + s;
    if s == 1 {
      EuclidUnique(a, k, 1, p);
    } else {
      assert p * (k - 1) == p * k - p;
      EuclidUnique(a, k - 1, p - 1, p);
    }
  }

  // ---------- Primes of the form 2p + 1 ----------

  lemma {:induction false} Pow2Add(a: nat, b: nat)
    ensures Pow2(a + b) == Pow2(a) * Pow2(b)
  {
    if a > 0 {
      Pow2Add(a - 1, b);
      Group(2, Pow2(a - 1), Pow2(b));
    }
  }

  lemma CongruentTrans(a: int, b: int, c: int, p: nat)
    requires p > 0 && Congruent(a, b, p) && Congruent(b, c, p)
    ensures Congruent(a, c, p) && Congruent(c, a, p)
  {
    var j, k := (a - b) / p, (b - c) / p;
    assert a == b + p * j && b == c + p * k;
    assert p * (j + k) == p * j + p * k && p * -(j + k) == -(p * (j + k));
    CongruentBy(a, c, j + k, p);
    CongruentBy(c, a, -(j + k), p);
  }

  /** Powers of a power that is 1 are 1. */
  lemma {:induction false} PowersOfOne(a: nat, b: nat, p: nat)
    requires p > 0 && Congruent(Pow2(a), 1, p)
    ensures Congruent(Pow2(a * b), 1, p)
  {
    hide Congruent;
    if b == 0 {
      assert a * b == 0 && Pow2(0) == 1;
      CongruentBy(1, 1, 0, p);
    } else {
      PowersOfOne(a, b - 1, p);
      assert a * b == a + a * (b - 1);
      Pow2Add(a, a * (b - 1));
      CongruentTimes(Pow2(a), 1, Pow2(a * (b - 1)), 1, p);
    }
  }

  /** Fermat's little theorem for 2. */
  lemma FermatLittle(q: nat)
    requires IsPrime(q) && q > 2
    ensures q % 2 == 1 && Congruent(Pow2(q - 1), 1, q)
  {
    assert q % 2 != 0;
    var h := (q - 1) / 2;
    assert q == 2 * h + 1;
    HalfPower(h);
    Pow2Add(h, h);
    var s := Sign((h + 1) / 2);
    CongruentTimes(Pow2(h), s, Pow2(h), s, q);
  }

  lemma {:induction false} PrimeFactor(n: nat) returns (q: nat)
    requires n >= 2
    ensures IsPrime(q) && n % q == 0 && q <= n
  {
    if d :| 2 <= d < n && n % d == 0 {
      q := PrimeFactor(d);
      DividesThrough(q, d, n);
    } else {
      q := n;
      EuclidUnique(n, 1, 0, n);
    }
  }

  lemma FactorOfOdd(q: nat, n: nat)
    requires q >= 2 && n % q == 0 && n % 2 == 1
    ensures q % 2 == 1 && q > 2
  {
    var c := n / q;
    assert n == q * c;
    var k := q / 2;
    assert 2 * k * c == 2 * (k * c);
    assert q % 2 == 0 ==> n == 2 * (k * c);
  }

  lemma CongruentFactor(a: int, b: int, q: nat, n: nat)
    requires q > 0 && n > 0 && n % q == 0 && Congruent(a, b, n)
    ensures Congruent(a, b, q)
  {
    var k, c := (a - b) / n, n / q;
    assert a - b == n * k && n == q * c;
    Group(q, c, k);
    CongruentBy(a, b, c * k, q);
  }

  /** If 2^2p is 1 modulo a prime other than 3, that prime is at least 2p + 1. */
  lemma FactorIsLarge(p: nat, q: nat)
    requires IsPrime(p) && p > 2 && IsPrime(q) && q > 3 && Congruent(Pow2(2 * p), 1, q)
    ensures q >= 2 * p + 1
  {
    FermatLittle(q);
    if (q - 1) % p != 0 {
      InverseExists(q - 1, p);
      var x := ModInverse(q - 1, p).value;
      ExponentsMeet(p, q, x, (q - 1) * x / p);
    } else {
      assert p % 2 != 0;
      EvenMultiple(p, q - 1);
    }
  }

  lemma EvenMultiple(p: nat, m: nat)
    requires p % 2 == 1 && m % p == 0 && m % 2 == 0 && m > 0
    ensures m >= 2 * p
  {
    var c := m / p;
    assert m == p * c;
    assert c == 1 ==> m == p;
    if c >= 2 {
      MulLe(2, c, p);
    }
  }

  lemma ExponentsMeet(p: nat, q: nat, x: nat, y: int)
    requires q > 1 && p > 1 && (q - 1) * x == p * y + 1
    requires Congruent(Pow2(q - 1), 1, q) && Congruent(Pow2(2 * p), 1, q)
    ensures q <= 3
  {
    assert y >= 0 by {
      MulLe(0, x, q - 1);
      if y < 0 {
        MulLe(y, -1, p);
      }
    }
    hide Congruent, Pow2;
    PowersOfOne(q - 1, x * 2, q);
    PowersOfOne(2 * p, y, q);
    assert (q - 1) * (x * 2) == 2 + 2 * p * y by {
      Group(q - 1, x, 2);
      Group(2, p, y);
    }
    Pow2Add(2, 2 * p * y);
    assert Pow2(2) == 4 by {
      FourIsSquare();
    }
    CongruentBy(4, 4, 0, q);
    CongruentTimes(4, 4, Pow2(2 * p * y), 1, q);
    var one := Pow2((q - 1) * (x * 2));
    assert Congruent(one, 4, q);
    CongruentTrans(one, 4, 4, q);
    CongruentTrans(4, one, 1, q);
    NotFour(q);
  }

  lemma NotFour(q: nat)
    requires q > 1 && Congruent(4, 1, q)
    ensures q <= 3
  {
    if q > 3 {
      EuclidUnique(3, 0, 3, q);
    }
  }

  lemma FourIsSquare()
    ensures Pow2(2) == 4
  {
  }

  /** 9 does not divide 2^2p - 1 unless 3 divides p. */
  lemma NotNine(p: nat)
    requires Congruent(Pow2(2 * p), 1, 9)
    ensures p % 3 == 0
  {
    var c, r := p / 3, p % 3;
    assert Pow2(6) == 64;
    CongruentBy(Pow2(6), 1, 7, 9);
    PowersOfOne(6, c, 9);
    Pow2Add(6 * c, 2 * r);
    assert 2 * p == 6 * c + 2 * r;
    var four := Pow2(2 * r);
    CongruentBy(four, four, 0, 9);
    CongruentTimes(Pow2(6 * c), 1, four, four, 9);
    CongruentTrans(Pow2(2 * p), four, four, 9);
    CongruentTrans(four, Pow2(2 * p), 1, 9);
    assert Pow2(2) == 4 && Pow2(4) == 16;
  }

  /** For an odd prime p, 2p + 1 is prime if it passes the Fermat test for 2. */
  lemma SafePrime(p: nat)
    requires IsPrime(p) && p > 2 && Congruent(Pow2(2 * p), 1, 2 * p + 1)
    ensures IsPrime(2 * p + 1)
  {
    var n := 2 * p + 1;
    hide Pow2, Congruent;
    if n % 3 != 0 {
      var q := PrimeFactor(n);
      FactorOfOdd(q, n);
      CongruentFactor(Pow2(2 * p), 1, q, n);
      FactorIsLarge(p, q);
    } else {
      NoThirds(p);
    }
  }

  lemma NoThirds(p: nat)
    requires IsPrime(p) && p > 2 && Congruent(Pow2(2 * p), 1, 2 * p + 1)
    ensures (2 * p + 1) % 3 != 0
  {
    var n := 2 * p + 1;
    hide Pow2, Congruent;
    if n % 3 == 0 {
      var m := n / 3;
      var q := PrimeFactor(m);
      assert n == 3 * m && n % 2 == 1;
      EuclidUnique(n, m, 0, 3);
      EuclidUnique(n, 3, 0, m);
      DividesThrough(q, m, n);
      FactorOfOdd(q, n);
      CongruentFactor(Pow2(2 * p), 1, q, n);
      if q != 3 {
        FactorIsLarge(p, q);
      } else {
        EuclidUnique(n, m / 3, 0, 9);
        CongruentFactor(Pow2(2 * p), 1, 9, n);
        NotNine(p);
      }
    }
  }
}
