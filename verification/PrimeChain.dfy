/** Probable prime chains: the Fermat test, the faster Euler-Lagrange-Lifchitz test, and chain lengths under both.
    A chain length counts in units of 2^-24: whole primes, plus a fraction that says how near the first composite
    number came to passing. */
module PrimeChain {
  import opened Arithmetic
  import opened Primes
  import opened Residues
  import Target

  /** One whole prime in a chain length. */
  const UNIT: nat := Target.TWO24

  function Pow(b: nat, e: nat): nat {
    if e == 0 then 1 else b * Pow(b, e - 1)
  }

  /** Composite carries the fractional length; Error is an error return, which leaves the fraction alone. */
  datatype Verdict = Prime | Composite(fraction: nat) | Error

  function Graded(n: nat, r: nat): Verdict
    requires r < n
  {
    var fraction := (n - r) * UNIT / n;
    if fraction >= UNIT then Error else Composite(fraction)
  }

  function Square(r: nat, n: nat): (s: nat)
    requires n > 0
    ensures s < n
  {
    r * r % n
  }

  function Fermat(n: nat): Verdict
    requires n > 0
  {
    var r := Pow(2, n - 1) % n;
    if r == 1 then Prime else Graded(n, r)
  }

  function EulerLagrangeLifchitz(n: nat, first: bool): Verdict
    requires n > 0
  {
    var r := Pow(2, (n - 1) / 2) % n;
    if (first && n % 8 == 7) || (!first && n % 8 == 1) then
      if r == 1 then Prime else Graded(n, Square(r, n))
    else if (first && n % 8 == 3) || (!first && n % 8 == 5) then
      if r + 1 == n then Prime else Graded(n, Square(r, n))
    else Error
  }

  // ---------- The two tests on one number ----------

  lemma {:induction false} PowAdd(b: nat, d: nat, e: nat)
    ensures Pow(b, d + e) == Pow(b, d) * Pow(b, e)
  {
    if d > 0 {
      PowAdd(b, d - 1, e);
      Associates(b, Pow(b, d - 1), Pow(b, e));
    }
  }

  lemma Associates(x: int, y: int, z: int)
    ensures x * (y * z) == x * y * z
  {
  }

  /** Reducing before squaring does not matter. */
  lemma SquareMod(x: nat, n: nat)
    requires n > 0
    ensures (x % n) * (x % n) % n == x * x % n
  {
    var q, r := x / n, x % n;
    assert x == q * n + r;
    assert x * x == (q * q * n + 2 * q * r) * n + r * r;
    ModOf(x * x, r * r, q * q * n + 2 * q * r, n);
  }

  /** The Fermat remainder is the square of the Euler remainder. */
  lemma FermatIsSquare(n: nat)
    requires n % 2 == 1
    ensures Square(Pow(2, (n - 1) / 2) % n, n) == Pow(2, n - 1) % n
  {
    var h := (n - 1) / 2;
    PowAdd(2, h, h);
    SquareMod(Pow(2, h), n);
  }

  /** No power of two is divisible by an odd number above 1. */
  lemma {:induction false} PowerOfTwoNotZero(n: nat, e: nat)
    requires n % 2 == 1 && n > 1
    ensures Pow(2, e) % n != 0
  {
    if e > 0 {
      PowerOfTwoNotZero(n, e - 1);
      DoubleNotZero(n, Pow(2, e - 1));
    } else {
      EuclidUnique(1, 0, 1, n);
    }
  }

  lemma DoubleNotZero(n: nat, x: nat)
    requires n % 2 == 1 && x % n != 0
    ensures (2 * x) % n != 0
  {
    var q, r := x / n, x % n;
    assert x == q * n + r;
    if 2 * r < n {
      assert 2 * q * n == 2 * (q * n);
      EuclidUnique(2 * x, 2 * q, 2 * r, n);
    } else {
      assert (2 * q + 1) * n == 2 * (q * n) + n;
      EuclidUnique(2 * x, 2 * q + 1, 2 * r - n, n);
    }
  }

  lemma GradedIsComposite(n: nat, r: nat)
    requires 0 < r < n
    ensures Graded(n, r).Composite? && Graded(n, r).fraction < UNIT
    ensures Graded(n, r).fraction * n <= (n - r) * UNIT < (Graded(n, r).fraction + 1) * n
  {
    var a := (n - r) * UNIT;
    QuotientBounds(a, n);
    MulLe(n - r + 1, n, UNIT);
    assert (n - r + 1) * UNIT == a + UNIT && n * UNIT == UNIT * n;
    if a / n >= UNIT {
      MulLe(UNIT, a / n, n);
      assert false;
    }
  }

  lemma MinusOneSquared(n: nat)
    requires n > 1
    ensures Square(n - 1, n) == 1 && Square(1, n) == 1
  {
    assert (n - 1) * (n - 1) == (n - 2) * n + 1;
    EuclidUnique((n - 1) * (n - 1), n - 2, 1, n);
  }

  /** On odd numbers the Fermat test has no error, and the fraction of a number that fails it is the part of n by which
      the remainder of 2^(n-1) falls short of n, rounded down to a multiple of 2^-24. */
  lemma FermatDecides(n: nat)
    requires n % 2 == 1 && n > 1
    ensures Fermat(n).Prime? <==> Pow(2, n - 1) % n == 1
    ensures !Fermat(n).Prime? ==>
              && Fermat(n).Composite? && Fermat(n).fraction < 0x100_0000
              && Fermat(n).fraction * n <= (n - Pow(2, n - 1) % n) * 0x100_0000 < (Fermat(n).fraction + 1) * n
  {
    PowerOfTwoNotZero(n, n - 1);
    var r := Pow(2, n - 1) % n;
    hide Pow, Graded;
    GradedIsComposite(n, r);
  }

  lemma Mod8(n: nat)
    ensures n % 4 == 3 <==> n % 8 == 3 || n % 8 == 7
    ensures n % 4 == 1 <==> n % 8 == 1 || n % 8 == 5
    ensures n % 4 == 3 || n % 4 == 1 ==> n % 2 == 1
  {
    var q, r := n / 8, n % 8;
    assert r == 0 || r == 1 || r == 2 || r == 3 || r == 4 || r == 5 || r == 6 || r == 7;
    EuclidUnique(n, 2 * q + r / 4, r % 4, 4);
    EuclidUnique(n, 4 * q + r / 2, r % 2, 2);
  }

  /** The fast test, on the numbers it is meant for: it decides, what passes it passes the Fermat test, and what
      fails both gets the same fraction. */
  lemma FastImpliesFermat(n: nat, first: bool)
    requires n > 1 && n % 4 == if first then 3 else 1
    ensures var fast := EulerLagrangeLifchitz(n, first);
            && (fast.Prime? ==> Fermat(n).Prime?)
            && (fast.Prime? || (fast.Composite? && fast.fraction < UNIT))
            && (fast.Composite? && !Fermat(n).Prime? ==> Fermat(n) == fast)
            && (fast.Composite? ==>
                  fast.fraction * n <= (n - Pow(2, n - 1) % n) * 0x100_0000 < (fast.fraction + 1) * n)
  {
    Mod8(n);
    FermatIsSquare(n);
    PowerOfTwoNotZero(n, n - 1);
    MinusOneSquared(n);
    hide Pow, Square, Graded;
    GradedIsComposite(n, Pow(2, n - 1) % n);
  }

  // ---------- What primes do ----------

  lemma {:induction false} PowIsPow2(e: nat)
    ensures Pow(2, e) == Pow2(e)
  {
    if e > 0 {
      PowIsPow2(e - 1);
    }
  }

  /** Every prime passes the fast test, on the numbers it is meant for. */
  lemma PrimePassesFast(n: nat, first: bool)
    requires IsPrime(n) && n % 4 == if first then 3 else 1
    ensures EulerLagrangeLifchitz(n, first).Prime?
  {
    assert n > 2;
    CharacterOfTwo(n);
    PowIsPow2((n - 1) / 2);
    Mod8(n);
  }

  /** Every odd prime passes the Fermat test. */
  lemma PrimePassesFermat(n: nat)
    requires IsPrime(n) && n > 2
    ensures n % 2 == 1 && Fermat(n).Prime?
  {
    assert n % 2 != 0;
    hide IsPrime;
    OddMod4(n);
    PrimePassesFast(n, n % 4 == 3);
    FastImpliesFermat(n, n % 4 == 3);
  }

  lemma OddMod4(n: nat)
    requires n % 2 == 1
    ensures n % 4 == 1 || n % 4 == 3
  {
    var q, r := n / 4, n % 4;
    assert r == 0 ==> n == 2 * (2 * q);
    assert r == 2 ==> n == 2 * (2 * q + 1);
  }

  /** After an odd prime p, both tests on the next number 2p + 1 of a chain of the first kind decide primality. */
  lemma FirstKindDecides(p: nat)
    requires IsPrime(p) && p > 2
    ensures (2 * p + 1) % 4 == 3
    ensures Fermat(2 * p + 1).Prime? <==> IsPrime(2 * p + 1)
    ensures EulerLagrangeLifchitz(2 * p + 1, true).Prime? <==> IsPrime(2 * p + 1)
  {
    var n := 2 * p + 1;
    assert p % 2 != 0;
    hide IsPrime;
    Doubled(p);
    FastImpliesFermat(n, true);
    if Fermat(n).Prime? {
      hide EulerLagrangeLifchitz;
      PowIsPow2(n - 1);
      CongruentBy(Pow2(n - 1), 1, Pow2(n - 1) / n, n);
      SafePrime(p);
    }
    if IsPrime(n) {
      PrimePassesFast(n, true);
    }
  }

  lemma PassesByOrder(n: nat, k: nat, c: nat)
    requires n > 1 && n % 8 == 1 && (n - 1) / 2 == k * c && Congruent(Pow2(k), 1, n)
    ensures EulerLagrangeLifchitz(n, false).Prime? && Fermat(n).Prime?
  {
    var h := (n - 1) / 2;
    assert Pow2(h) % n == 1 by {
      PowersOfOne(k, c, n);
      OneByCongruence(Pow2(h), n);
    }
    PowIsPow2(h);
    hide Pow2, Pow, Square, Graded, Fermat, Congruent;
    assert EulerLagrangeLifchitz(n, false).Prime?;
    Mod8(n);
    FastImpliesFermat(n, false);
  }

  lemma OneByCongruence(a: int, n: nat)
    requires n > 1 && Congruent(a, 1, n)
    ensures a % n == 1
  {
    var q := (a - 1) / n;
    assert a - 1 == n * q;
    OneModulo(a, q, n);
  }

  /** Of the second kind they do not: 281 is prime, and 2 * 281 - 1 passes although it is 3 * 11 * 17. */
  lemma SecondKindMayErr(p: nat, n: nat)
    requires p == 281 && n == 561
    ensures IsPrime(p) && !IsPrime(n) && n == 2 * p - 1
    ensures EulerLagrangeLifchitz(n, false).Prime? && Fermat(n).Prime?
  {
    assert n % 3 == 0;
    hide Fermat, EulerLagrangeLifchitz;
    IsPrime281();
    hide IsPrime;
    PowerOf40();
    hide Pow2;
    CongruentBy(Pow2(40), 1, 1_959_913_775, n);
    PassesByOrder(n, 40, 7);
  }

  lemma IsPrime281()
    ensures IsPrime(281)
  {
    hide IsPrime;
    assert forall d :: 2 <= d < 17 ==> !IsLowFactor(d, 281);
    NoFactorIsPrime(281, 17);
  }

  lemma PowerOf40()
    ensures Pow2(40) == 1_099_511_627_776
  {
    assert Pow2(10) == 1024;
    Pow2Add(10, 10);
    Pow2Add(20, 20);
  }

  // ---------- Chains ----------

  type Pos = n: nat | n > 0 witness 1

  /** The outcomes of a test along a chain of numbers. */
  type Outcomes = nat -> Verdict

  function Next(n: Pos, first: bool): Pos {
    2 * n + if first then 1 else -1
  }

  /** The numbers of a Cunningham chain: n, 2n + 1, 4n + 3, ... or n, 2n - 1, 4n - 3, ... */
  function Term(n: Pos, first: bool, i: nat): Pos {
    if i == 0 then n else Next(Term(n, first, i - 1), first)
  }

  /** The first number is always given the Fermat test. */
  function Test(n: Pos, first: bool, fermat: bool, i: nat): Verdict {
    if fermat || i == 0 then Fermat(Term(n, first, i)) else EulerLagrangeLifchitz(Term(n, first, i), first)
  }

  function Chain(n: Pos, first: bool, fermat: bool): Outcomes {
    (i: nat) => Test(n, first, fermat, i)
  }

  /** Around an origin o: o - 1, o + 1, 2o - 1, 2o + 1, 4o - 1, 4o + 1, ... */
  function BiTwin(o: nat, fermat: bool): Outcomes
    requires o > 1
  {
    (i: nat) => if i % 2 == 0 then Test(o - 1, true, fermat, i / 2) else Test(o + 1, false, fermat, i / 2)
  }

  ghost predicate FirstFailure(t: Outcomes, k: nat) {
    !t(k).Prime? && forall i :: 0 <= i < k ==> t(i).Prime?
  }

  /** The length of a chain whose first failure is at k. */
  function LengthAt(t: Outcomes, k: nat): nat {
    k * UNIT + Grade(t(k))
  }

  function Grade(v: Verdict): nat {
    match v case Composite(fraction) => fraction case _ => 0
  }

  /** The numbers of the two chains around an origin are its doublings, less and plus one. */
  lemma {:induction false} TermClosed(o: nat, i: nat)
    requires o > 1
    ensures Term(o - 1, true, i) == o * Pow2(i) - 1
    ensures Term(o + 1, false, i) == o * Pow2(i) + 1
  {
    if i > 0 {
      TermClosed(o, i - 1);
      Pow2Next(i - 1);
      hide Pow2;
      Twice(o, Pow2(i - 1));
    } else {
      assert o * Pow2(0) == o;
    }
  }

  lemma Twice(o: nat, p: nat)
    ensures o * (2 * p) == 2 * (o * p)
  {
  }

  /** All numbers around an even origin are odd; those after the first pair are 1 below and above a multiple of 4. */
  lemma {:induction false} TermShape(o: nat, i: nat)
    requires o % 2 == 0 && o > 1
    ensures var a, b := Term(o - 1, true, i), Term(o + 1, false, i);
            b == a + 2 && (i > 0 || o > 2 ==> a > 1) && a % 2 == 1 && b % 2 == 1 && (i > 0 ==> a % 4 == 3 && b % 4 == 1)
  {
    if i > 0 {
      TermShape(o, i - 1);
      Doubled(Term(o - 1, true, i - 1));
    }
  }

  lemma Doubled(a: nat)
    requires a % 2 == 1
    ensures (2 * a + 1) % 4 == 3 && (2 * a + 1) % 2 == 1 && (2 * a + 3) % 4 == 1 && (2 * a + 3) % 2 == 1
  {
    var k := a / 2;
    assert 2 * a + 1 == 4 * k + 3 && 2 * a + 3 == 4 * (k + 1) + 1;
  }

  // ---------- The fast test against the Fermat test ----------

  /** One outcome of the fast test beside one of the Fermat test. */
  ghost predicate Agrees(fast: Verdict, slow: Verdict) {
    && (fast.Prime? ==> slow.Prime?)
    && (!fast.Prime? ==> slow.Prime? || slow == fast)
    && Grade(fast) < UNIT
  }

  lemma ChainAgrees(o: nat, first: bool, i: nat)
    requires o % 2 == 0 && o > 1
    ensures var n := if first then o - 1 else o + 1;
            Agrees(Test(n, first, false, i), Test(n, first, true, i))
  {
    hide Term, Fermat, EulerLagrangeLifchitz, Grade;
    var n := if first then o - 1 else o + 1;
    GradeBelowUnit(n, first, false, i);
    if i > 0 {
      TermShape(o, i);
      FastImpliesFermat(Term(n, first, i), first);
    }
  }

  lemma GradeBelowUnit(n: Pos, first: bool, fermat: bool, i: nat)
    ensures Grade(Test(n, first, fermat, i)) < UNIT
  {
    hide Pow, Square;
  }

  /** Even numbers fail the Fermat test. */
  lemma EvenFails(n: nat)
    requires n % 2 == 0 && n > 0
    ensures !Fermat(n).Prime?
  {
    var x := Pow(2, n - 2);
    assert Pow(2, n - 1) == 2 * x;
    var q, r := 2 * x / n, 2 * x % n;
    var h := n / 2;
    assert n == 2 * h && 2 * x == n * q + r;
    assert n * q == 2 * (h * q);
    assert r == 2 * (x - h * q);
  }

  /** Around an odd origin both tests give up at once. */
  lemma OddOrigin(o: nat, kind: nat, fermat: bool, k: nat)
    requires o % 2 == 1 && o > 1 && kind < 3 && FirstFailure(OutcomesOf(o, kind, fermat), k)
    ensures k == 0
  {
    hide Fermat, EulerLagrangeLifchitz;
    EvenFails(o - 1);
    EvenFails(o + 1);
    assert !OutcomesOf(o, kind, fermat)(0).Prime?;
  }

  /** A faster test that lets nothing extra pass never gives a longer chain, and gives the same length exactly when
      the number it stopped at fails the other test too. */
  lemma FastIsNotLonger(fast: Outcomes, slow: Outcomes, kFast: nat, kSlow: nat)
    requires Agrees(fast(kFast), slow(kFast)) && Agrees(fast(kSlow), slow(kSlow))
    requires FirstFailure(fast, kFast) && FirstFailure(slow, kSlow)
    ensures kFast <= kSlow && LengthAt(fast, kFast) <= LengthAt(slow, kSlow)
    ensures LengthAt(fast, kFast) == LengthAt(slow, kSlow) <==> !slow(kFast).Prime?
  {
    hide Agrees;
    AgreeOnFailure(fast(kFast), slow(kFast));
    AgreeOnFailure(fast(kSlow), slow(kSlow));
    if slow(kFast).Prime? {
      assert kFast < kSlow;
    }
  }

  lemma AgreeOnFailure(fast: Verdict, slow: Verdict)
    requires Agrees(fast, slow)
    ensures !slow.Prime? ==> !fast.Prime? && Grade(slow) == Grade(fast)
    ensures !fast.Prime? ==> Grade(fast) < UNIT
  {
  }

  /** For all three kinds of chain around any origin. */
  lemma FastLengths(o: nat, kind: nat, kFast: nat, kSlow: nat)
    requires o > 1 && kind < 3
    requires FirstFailure(OutcomesOf(o, kind, false), kFast) && FirstFailure(OutcomesOf(o, kind, true), kSlow)
    ensures LengthAt(OutcomesOf(o, kind, false), kFast) <= LengthAt(OutcomesOf(o, kind, true), kSlow)
    ensures LengthAt(OutcomesOf(o, kind, false), kFast) == LengthAt(OutcomesOf(o, kind, true), kSlow)
            <==> !OutcomesOf(o, kind, true)(kFast).Prime?
  {
    hide OutcomesOf, FirstFailure, LengthAt;
    var fast, slow := OutcomesOf(o, kind, false), OutcomesOf(o, kind, true);
    if o % 2 == 1 {
      OddOrigin(o, kind, false, kFast);
      OddOrigin(o, kind, true, kSlow);
    }
    OutcomesAgree(o, kind, kFast);
    OutcomesAgree(o, kind, kSlow);
    FastIsNotLonger(fast, slow, kFast, kSlow);
  }

  lemma OutcomesAgree(o: nat, kind: nat, i: nat)
    requires o > 1 && kind < 3 && (o % 2 == 0 || i == 0)
    ensures Agrees(OutcomesOf(o, kind, false)(i), OutcomesOf(o, kind, true)(i))
  {
    var first, j := if kind < 2 then kind == 0 else i % 2 == 0, if kind < 2 then i else i / 2;
    if o % 2 == 0 {
      ChainAgrees(o, first, j);
    } else {
      GradeBelowUnit(if first then o - 1 else o + 1, first, false, 0);
    }
    hide Fermat, EulerLagrangeLifchitz, Grade;
  }

  function OutcomesOf(o: nat, kind: nat, fermat: bool): Outcomes
    requires o > 1
  {
    if kind == 0 then Chain(o - 1, true, fermat)
    else if kind == 1 then Chain(o + 1, false, fermat)
    else BiTwin(o, fermat)
  }

  // ---------- Chains of primes ----------

  /** The numbers of the three kinds of chain around an origin: o 2^i - 1, o 2^i + 1, or one after the other. */
  function NumberOf(o: nat, kind: nat, i: nat): int {
    if kind == 0 then o * Pow2(i) - 1
    else if kind == 1 then o * Pow2(i) + 1
    else if i % 2 == 0 then o * Pow2(i / 2) - 1
    else o * Pow2(i / 2) + 1
  }

  lemma PrimePassesAt(o: nat, first: bool, fermat: bool, i: nat)
    requires o % 2 == 0 && o > 1
    ensures var n := if first then o - 1 else o + 1;
            IsPrime(Term(n, first, i)) ==> Test(n, first, fermat, i).Prime?
  {
    hide Term, Fermat, EulerLagrangeLifchitz;
    var n := if first then o - 1 else o + 1;
    var t := Term(n, first, i);
    TermShape(o, i);
    if IsPrime(t) {
      hide IsPrime;
      PrimePassesFermat(t);
      if i > 0 {
        PrimePassesFast(t, first);
      }
    }
  }

  lemma NumberPasses(o: nat, kind: nat, fermat: bool, i: nat)
    requires o % 2 == 0 && o > 1 && kind < 3 && NumberOf(o, kind, i) >= 0 && IsPrime(NumberOf(o, kind, i))
    ensures OutcomesOf(o, kind, fermat)(i).Prime?
  {
    var first, j := if kind < 2 then kind == 0 else i % 2 == 0, if kind < 2 then i else i / 2;
    TermClosed(o, j);
    PrimePassesAt(o, first, fermat, j);
    hide Test, Term, IsPrime, Pow2;
  }

  /** A real chain is found: if the first m numbers of a chain are prime, both tests give it a length of at least m. */
  lemma PrimesAreCounted(o: nat, kind: nat, fermat: bool, m: nat, k: nat)
    requires o % 2 == 0 && o > 1 && kind < 3
    requires forall i :: 0 <= i < m ==> NumberOf(o, kind, i) >= 0 && IsPrime(NumberOf(o, kind, i))
    requires FirstFailure(OutcomesOf(o, kind, fermat), k)
    ensures m <= k && m * 0x100_0000 <= LengthAt(OutcomesOf(o, kind, fermat), k)
  {
    if k < m {
      NumberPasses(o, kind, fermat, k);
    }
    hide OutcomesOf, Grade;
  }

  lemma NextTermDecides(o: nat, fermat: bool, i: nat)
    requires o % 2 == 0 && o > 1 && IsPrime(Term(o - 1, true, i))
    ensures Test(o - 1, true, fermat, i + 1).Prime? <==> IsPrime(Term(o - 1, true, i + 1))
  {
    TermShape(o, i);
    FirstKindDecides(Term(o - 1, true, i));
    hide Fermat, EulerLagrangeLifchitz, IsPrime;
  }

  lemma {:induction false} FirstKindPrimes(o: nat, fermat: bool, k: nat, i: nat)
    requires o % 2 == 0 && o > 1 && IsPrime(o - 1) && FirstFailure(Chain(o - 1, true, fermat), k) && i <= k
    ensures IsPrime(Term(o - 1, true, i)) <==> i < k
  {
    hide Test, IsPrime;
    if i > 0 {
      FirstKindPrimes(o, fermat, k, i - 1);
      NextTermDecides(o, fermat, i - 1);
      assert Chain(o - 1, true, fermat)(i) == Test(o - 1, true, fermat, i);
    } else {
      PrimePassesAt(o, true, fermat, 0);
      assert Chain(o - 1, true, fermat)(0) == Test(o - 1, true, fermat, 0);
    }
  }

  /** If the first number of a chain of the first kind is a prime, its length counts primes: the tests stop at the first
      number that is not prime. */
  lemma FirstKindIsExact(o: nat, fermat: bool, k: nat)
    requires o % 2 == 0 && o > 1 && IsPrime(o - 1) && FirstFailure(OutcomesOf(o, 0, fermat), k)
    ensures forall i :: 0 <= i < k ==> o * Pow2(i) > 0 && IsPrime(o * Pow2(i) - 1)
    ensures o * Pow2(k) > 0 && !IsPrime(o * Pow2(k) - 1)
  {
    hide IsPrime, FirstFailure;
    forall i | 0 <= i <= k
      ensures o * Pow2(i) > 0 && (IsPrime(o * Pow2(i) - 1) <==> i < k)
    {
      FirstKindPrimes(o, fermat, k, i);
      TermClosed(o, i);
    }
  }

  // ---------- Bi-twin chains ----------

  /** How the bi-twin length is computed from the other two. */
  function BiTwinLength(len1: nat, len2: nat): nat {
    if len1 / UNIT > len2 / UNIT then len2 + (len2 / UNIT + 1) * UNIT else len1 + len1 / UNIT * UNIT
  }

  lemma ChainGrade(n: Pos, first: bool, fermat: bool, k: nat)
    ensures Grade(Chain(n, first, fermat)(k)) < UNIT
  {
    GradeBelowUnit(n, first, fermat, k);
    hide Test;
  }

  /** It is the longest passing prefix of the interleaved numbers, with the fraction of the first failure. */
  lemma BiTwinIsPrefix(o: nat, fermat: bool, k1: nat, k2: nat)
    requires o > 1
    requires FirstFailure(Chain(o - 1, true, fermat), k1) && FirstFailure(Chain(o + 1, false, fermat), k2)
    ensures var k := if k1 > k2 then 2 * k2 + 1 else 2 * k1;
            && FirstFailure(BiTwin(o, fermat), k)
            && LengthAt(BiTwin(o, fermat), k)
               == BiTwinLength(LengthAt(Chain(o - 1, true, fermat), k1), LengthAt(Chain(o + 1, false, fermat), k2))
  {
    hide Test, Chain, BiTwin, Grade, BiTwinLength;
    ChainGrade(o - 1, true, fermat, k1);
    ChainGrade(o + 1, false, fermat, k2);
    var c1, c2 := Chain(o - 1, true, fermat), Chain(o + 1, false, fermat);
    BiTwinArithmetic(k1, Grade(c1(k1)), k2, Grade(c2(k2)));
    var k := if k1 > k2 then 2 * k2 + 1 else 2 * k1;
    forall i: nat | i < k
      ensures BiTwin(o, fermat)(i).Prime?
    {
      BiTwinAt(o, fermat, i / 2);
    }
    BiTwinAt(o, fermat, if k1 > k2 then k2 else k1);
  }

  lemma BiTwinArithmetic(k1: nat, g1: nat, k2: nat, g2: nat)
    requires g1 < UNIT && g2 < UNIT
    ensures BiTwinLength(k1 * UNIT + g1, k2 * UNIT + g2)
         == if k1 > k2 then (2 * k2 + 1) * UNIT + g2 else 2 * k1 * UNIT + g1
  {
    assert (k1 * UNIT + g1) / UNIT == k1 && (k2 * UNIT + g2) / UNIT == k2;
  }

  lemma BiTwinAt(o: nat, fermat: bool, j: nat)
    requires o > 1
    ensures BiTwin(o, fermat)(2 * j) == Chain(o - 1, true, fermat)(j)
    ensures BiTwin(o, fermat)(2 * j + 1) == Chain(o + 1, false, fermat)(j)
  {
    hide Test;
    assert (2 * j) / 2 == j && (2 * j + 1) / 2 == j;
  }

  // ---------- The loops ----------

  /** Record a failed test in a length. */
  function Failed(length: nat, v: Verdict): nat {
    if v.Composite? then length / UNIT * UNIT + v.fraction else length
  }

  /** ProbableCunninghamChainTest.  That the chain ends somewhere is an assumption on the numbers. */
  method ProbableCunninghamChainTest(n: Pos, first: bool, fermat: bool, ghost stop: nat)
    returns (found: bool, length: nat)
    requires !Chain(n, first, fermat)(stop).Prime?
    ensures exists k :: FirstFailure(Chain(n, first, fermat), k) && length == LengthAt(Chain(n, first, fermat), k)
                        && (found <==> k >= 2)
  {
    hide Fermat, EulerLagrangeLifchitz;
    ghost var t := Chain(n, first, fermat);
    assert forall i: nat :: t(i) == Test(n, first, fermat, i);
    ghost var k := 0;
    length := 0;
    var number := n;
    var v := Fermat(number);
    if !v.Prime? {
      length := Failed(length, v);
      assert t(0) == v && FirstFailure(t, 0);
      return false, length;
    }
    assert t(0).Prime?;
    while true
      invariant k <= stop && number == Term(n, first, k) && length == k * UNIT
      invariant forall i :: 0 <= i <= k ==> t(i).Prime?
      decreases stop - k
    {
      length := length + UNIT;
      number := Next(number, first);
      k := k + 1;
      v := if fermat then Fermat(number) else EulerLagrangeLifchitz(number, first);
      assert t(k) == v;
      if !v.Prime? {
        break;
      }
    }
    GradeBelowUnit(n, first, fermat, k);
    length := Failed(length, v);
    found := length / UNIT >= 2;
    assert FirstFailure(t, k);
  }

  /** The chain of one kind around an origin first fails at k and has that length. */
  ghost predicate EndsAt(o: nat, first: bool, fermat: bool, k: nat, length: nat)
    requires o > 1
  {
    var t := Chain(if first then o - 1 else o + 1, first, fermat);
    FirstFailure(t, k) && length == LengthAt(t, k)
  }

  /** The chain test on all three kinds of chain around an origin. */
  method ProbablePrimeChainTest(o: nat, bits: nat, fermat: bool, ghost stop1: nat, ghost stop2: nat)
    returns (meets: bool, len1: nat, len2: nat, lenBiTwin: nat)
    requires o > 1
    requires !Chain(o - 1, true, fermat)(stop1).Prime? && !Chain(o + 1, false, fermat)(stop2).Prime?
    ensures (exists k :: EndsAt(o, true, fermat, k, len1)) && (exists k :: EndsAt(o, false, fermat, k, len2))
    ensures exists k :: FirstFailure(BiTwin(o, fermat), k) && lenBiTwin == LengthAt(BiTwin(o, fermat), k)
    ensures lenBiTwin == BiTwinLength(len1, len2)
    ensures meets <==> len1 >= bits || len2 >= bits || lenBiTwin >= bits
  {
    hide Chain, BiTwin, LengthAt, FirstFailure;
    var found;
    found, len1 := ProbableCunninghamChainTest(o - 1, true, fermat, stop1);
    ghost var k1 :| FirstFailure(Chain(o - 1, true, fermat), k1) && len1 == LengthAt(Chain(o - 1, true, fermat), k1);
    found, len2 := ProbableCunninghamChainTest(o + 1, false, fermat, stop2);
    ghost var k2 :| FirstFailure(Chain(o + 1, false, fermat), k2) && len2 == LengthAt(Chain(o + 1, false, fermat), k2);
    lenBiTwin := if len1 / UNIT > len2 / UNIT then len2 + (len2 / UNIT + 1) * UNIT else len1 + len1 / UNIT * UNIT;
    BiTwinIsPrefix(o, fermat, k1, k2);
    assert EndsAt(o, true, fermat, k1, len1) && EndsAt(o, false, fermat, k2, len2);
    meets := len1 >= bits || len2 >= bits || lenBiTwin >= bits;
  }

  /** The chain part of CheckPrimeProofOfWork: the fast lengths must meet the target, and the Fermat-only double check
      must give the same lengths.  It does so exactly when both numbers that the fast test stopped at fail the Fermat
      test. */
  method CheckChain(o: nat, bits: nat, ghost stop1: nat, ghost stop2: nat)
    returns (accepted: bool, len1: nat, len2: nat, lenBiTwin: nat)
    requires o > 1
    requires !Chain(o - 1, true, true)(stop1).Prime? && !Chain(o + 1, false, true)(stop2).Prime?
    ensures exists k1, k2 ::
              && EndsAt(o, true, false, k1, len1) && EndsAt(o, false, false, k2, len2)
              && (accepted <==>
                    && (len1 >= bits || len2 >= bits || lenBiTwin >= bits)
                    && !Fermat(Term(o - 1, true, k1)).Prime? && !Fermat(Term(o + 1, false, k2)).Prime?)
    ensures lenBiTwin == BiTwinLength(len1, len2)
  {
    ghost var fast1, fast2 := if o % 2 == 0 then stop1 else 0, if o % 2 == 0 then stop2 else 0;
    FailsFastToo(o, true, stop1);
    FailsFastToo(o, false, stop2);
    hide LengthAt, FirstFailure, BiTwin, BiTwinLength, Test, Chain;
    var meets;
    meets, len1, len2, lenBiTwin := ProbablePrimeChainTest(o, bits, false, fast1, fast2);
    var slow, slow1, slow2, slowBiTwin := ProbablePrimeChainTest(o, bits, true, stop1, stop2);
    ghost var k1, k2 :| EndsAt(o, true, false, k1, len1) && EndsAt(o, false, false, k2, len2);
    ghost var s1, s2 :| EndsAt(o, true, true, s1, slow1) && EndsAt(o, false, true, s2, slow2);
    SameLength(o, true, k1, s1);
    SameLength(o, false, k2, s2);
    accepted := meets && slow && len1 == slow1 && len2 == slow2 && lenBiTwin == slowBiTwin;
  }

  lemma FailsFastToo(o: nat, first: bool, i: nat)
    requires o > 1
    ensures var n, j := if first then o - 1 else o + 1, if o % 2 == 0 then i else 0;
            !Chain(n, first, true)(i).Prime? ==> !Chain(n, first, false)(j).Prime?
  {
    if o % 2 == 0 {
      ChainAgrees(o, first, i);
    } else {
      EvenFails(if first then o - 1 else o + 1);
    }
    hide Fermat, EulerLagrangeLifchitz;
  }

  lemma SameLength(o: nat, first: bool, kFast: nat, kSlow: nat)
    requires o > 1
    requires var n := if first then o - 1 else o + 1;
             FirstFailure(Chain(n, first, false), kFast) && FirstFailure(Chain(n, first, true), kSlow)
    ensures var n := if first then o - 1 else o + 1;
            LengthAt(Chain(n, first, false), kFast) == LengthAt(Chain(n, first, true), kSlow)
            <==> !Fermat(Term(n, first, kFast)).Prime?
  {
    var n, kind := if first then o - 1 else o + 1, if first then 0 else 1;
    hide Fermat, EulerLagrangeLifchitz, LengthAt, FirstFailure, BiTwin;
    FastLengths(o, kind, kFast, kSlow);
    assert Chain(n, first, true)(kFast) == Fermat(Term(n, first, kFast));
  }
}
