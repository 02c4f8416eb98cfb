/** CSieveOfEratosthenes: for a fixed factor, which multipliers give chains without small divisors. */
module Sieve {
  import opened Arithmetic
  import opened Primes
  import PrimeChain

  /** The three kinds of chain, and so the three bitmaps. */
  datatype Kind = Cunningham1 | Cunningham2 | BiTwin

  /** The numbers f m - 1, f m + 1, 2 f m - 1, 2 f m + 1, 4 f m - 1, ... */
  function Number(f: nat, m: nat, s: nat): int {
    f * Pow2(s / 2) * m + if s % 2 == 0 then -1 else 1
  }

  predicate Hits(p: nat, f: nat, m: nat, s: nat)
    requires p > 0
  {
    Number(f, m, s) % p == 0
  }

  /** Whether number s of the sequence belongs to a chain of that kind and length. */
  predicate Belongs(kind: Kind, s: nat, length: nat) {
    match kind
    case Cunningham1 => s % 2 == 0 && s < 2 * length
    case Cunningham2 => s % 2 == 1 && s < 2 * length
    case BiTwin => s < length
  }

  /** p divides one of the first n numbers that belong to the chain. */
  ghost predicate Divides(p: nat, f: nat, m: nat, kind: Kind, length: nat, n: nat)
    requires p > 0
  {
    exists s :: 0 <= s < n && Belongs(kind, s, length) && Hits(p, f, m, s)
  }

  ghost predicate AllPrime(primes: seq<nat>) {
    forall i :: 0 <= i < |primes| ==> IsPrime(primes[i])
  }

  /** One of the first count primes divides a number of the chain. */
  ghost predicate Ruled(primes: seq<nat>, count: nat, f: nat, m: nat, kind: Kind, length: nat)
    requires AllPrime(primes)
  {
    exists i :: 0 <= i < count && i < |primes| && Divides(primes[i], f, m, kind, length, 2 * length)
  }

  /** A bitmap marks exactly the multipliers that are ruled out. */
  ghost predicate MapOk(bits: seq<bool>, size: nat, primes: seq<nat>, count: nat, f: nat, kind: Kind, length: nat)
    requires AllPrime(primes)
  {
    size <= |bits| && forall m :: 0 <= m < size ==> (bits[m] <==> Ruled(primes, count, f, m, kind, length))
  }

  /** While prime p is woven in: n numbers of the sequence are done. */
  ghost predicate MapPartly(bits: seq<bool>, size: nat, primes: seq<nat>, count: nat, f: nat, kind: Kind, length: nat,
                            p: nat, n: nat)
    requires AllPrime(primes) && p > 0
  {
    && size <= |bits|
    && forall m :: 0 <= m < size ==>
         (bits[m] <==> Ruled(primes, count, f, m, kind, length) || Divides(p, f, m, kind, length, n))
  }

  /** For a Cunningham chain: some prime divides f m 2^k - 1, or f m 2^k + 1 for the second kind, with k below the
      length. */
  lemma RuledMeans(primes: seq<nat>, count: nat, f: nat, m: nat, first: bool, length: nat)
    requires AllPrime(primes) && count <= |primes|
    ensures Ruled(primes, count, f, m, if first then Cunningham1 else Cunningham2, length)
            <==> exists i, k :: 0 <= i < count && 0 <= k < length && DividesTerm(primes[i], f, m, k, first)
  {
    var kind := if first then Cunningham1 else Cunningham2;
    if Ruled(primes, count, f, m, kind, length) {
      var i :| 0 <= i < count && i < |primes| && Divides(primes[i], f, m, kind, length, 2 * length);
      var s :| 0 <= s < 2 * length && Belongs(kind, s, length) && Hits(primes[i], f, m, s);
      assert DividesTerm(primes[i], f, m, s / 2, first);
    }
    if i, k :| 0 <= i < count && 0 <= k < length && DividesTerm(primes[i], f, m, k, first) {
      var s := 2 * k + if first then 0 else 1;
      assert s / 2 == k && s % 2 == if first then 0 else 1;
      assert Belongs(kind, s, length) && Hits(primes[i], f, m, s);
      assert Divides(primes[i], f, m, kind, length, 2 * length);
    }
  }

  predicate DividesTerm(p: nat, f: nat, m: nat, k: nat, first: bool)
    requires p > 0
  {
    (f * Pow2(k) * m + if first then -1 else 1) % p == 0
  }

  /** The numbers of the sequence are those that the chain tests look at, around the origin f m. */
  lemma NumberIsTerm(f: nat, m: nat, s: nat)
    requires f * m > 1
    ensures var o := f * m;
            Number(f, m, s)
            == if s % 2 == 0 then PrimeChain.Term(o - 1, true, s / 2) else PrimeChain.Term(o + 1, false, s / 2)
  {
    PrimeChain.TermClosed(f * m, s / 2);
    Reorder(f, m, Pow2(s / 2));
  }

  lemma Reorder(f: int, m: int, p: int)
    ensures f * p * m == f * m * p
  {
    assert f * p * m == f * (p * m) && f * m * p == f * (m * p);
  }

  /** A proper divisor makes a number composite. */
  lemma DivisorMeansComposite(n: nat, p: nat)
    requires 2 <= p < n && n % p == 0
    ensures !IsPrime(n)
  {
  }

  /** A marked multiplier is rightly discarded: when the numbers are larger than the woven primes, one of those that
      belong to the chain is composite. */
  lemma MarkedIsComposite(primes: seq<nat>, count: nat, f: nat, m: nat, kind: Kind, length: nat) returns (s: nat)
    requires AllPrime(primes) && count <= |primes| && Ruled(primes, count, f, m, kind, length)
    requires f * m > 1 && forall i :: 0 <= i < count ==> primes[i] < f * m - 1
    ensures s < 2 * length && Belongs(kind, s, length)
    ensures Number(f, m, s) > 0 && !IsPrime(Number(f, m, s))
  {
    var i :| 0 <= i < count && i < |primes| && Divides(primes[i], f, m, kind, length, 2 * length);
    s :| 0 <= s < 2 * length && Belongs(kind, s, length) && Hits(primes[i], f, m, s);
    assert IsPrime(primes[i]);
    hide IsPrime, Belongs, AllPrime;
    Reorder(f, m, Pow2(s / 2));
    MulLe(1, Pow2(s / 2), f * m);
    PrimeIsAtLeastTwo(primes[i]);
    DivisorMeansComposite(Number(f, m, s), primes[i]);
  }

  lemma PrimeIsAtLeastTwo(p: nat)
    requires IsPrime(p)
    ensures p >= 2
  {
  }

  // ---------- Single steps ----------

  lemma DividesNext(p: nat, f: nat, m: nat, kind: Kind, length: nat, n: nat)
    requires p > 0
    ensures Divides(p, f, m, kind, length, n + 1)
            <==> Divides(p, f, m, kind, length, n) || (Belongs(kind, n, length) && Hits(p, f, m, n))
  {
    hide Belongs, Hits;
    if Divides(p, f, m, kind, length, n + 1) {
      var s :| 0 <= s < n + 1 && Belongs(kind, s, length) && Hits(p, f, m, s);
      assert s < n || s == n;
    }
  }

  /** after is before with the residue class of solved marked. */
  ghost predicate ClassMarked(before: seq<bool>, after: seq<bool>, size: nat, p: nat, solved: nat)
    requires p > 0
  {
    |after| == |before| && forall m :: 0 <= m < size && m < |before| ==> (after[m] <==> before[m] || m % p == solved)
  }

  lemma StepKeeps(before: seq<bool>, after: seq<bool>, size: nat, primes: seq<nat>, count: nat, f: nat, kind: Kind,
                  length: nat, p: nat, n: nat, solved: nat)
    requires AllPrime(primes) && p > 0 && MapPartly(before, size, primes, count, f, kind, length, p, n)
    requires forall m :: 0 <= m < size ==> (Hits(p, f, m, n) <==> m % p == solved)
    requires if Belongs(kind, n, length) then ClassMarked(before, after, size, p, solved) else after == before
    ensures MapPartly(after, size, primes, count, f, kind, length, p, n + 1)
  {
    hide Ruled, Divides, Hits, Belongs;
    forall m: nat | m < size
      ensures after[m] <==> Ruled(primes, count, f, m, kind, length) || Divides(p, f, m, kind, length, n + 1)
    {
      DividesNext(p, f, m, kind, length, n);
    }
  }

  lemma StartWeaving(bits: seq<bool>, size: nat, primes: seq<nat>, count: nat, f: nat, kind: Kind, length: nat, p: nat)
    requires AllPrime(primes) && p > 0 && MapOk(bits, size, primes, count, f, kind, length)
    ensures MapPartly(bits, size, primes, count, f, kind, length, p, 0)
  {
    hide Ruled;
    forall m: nat | m < size
      ensures bits[m] <==> Ruled(primes, count, f, m, kind, length) || Divides(p, f, m, kind, length, 0)
    {
      assert !Divides(p, f, m, kind, length, 0);
    }
  }

  lemma RuledNext(primes: seq<nat>, count: nat, f: nat, m: nat, kind: Kind, length: nat)
    requires AllPrime(primes) && count < |primes|
    ensures Ruled(primes, count + 1, f, m, kind, length)
            <==> Ruled(primes, count, f, m, kind, length) || Divides(primes[count], f, m, kind, length, 2 * length)
  {
    hide Divides;
    if Ruled(primes, count + 1, f, m, kind, length) {
      var i :| 0 <= i < count + 1 && i < |primes| && Divides(primes[i], f, m, kind, length, 2 * length);
      assert i < count || i == count;
    }
  }

  lemma FinishWeaving(bits: seq<bool>, size: nat, primes: seq<nat>, count: nat, f: nat, kind: Kind, length: nat)
    requires AllPrime(primes) && count < |primes|
    requires MapPartly(bits, size, primes, count, f, kind, length, primes[count], 2 * length)
    ensures MapOk(bits, size, primes, count + 1, f, kind, length)
  {
    hide Ruled, Divides;
    forall m: nat | m < size
      ensures bits[m] <==> Ruled(primes, count + 1, f, m, kind, length)
    {
      RuledNext(primes, count, f, m, kind, length);
    }
  }

  /** A prime that divides the fixed factor divides no number of any chain. */
  lemma FactorNeverHits(p: nat, f: nat, m: nat, s: nat)
    requires IsPrime(p) && f % p == 0
    ensures !Hits(p, f, m, s)
  {
    var q := f / p;
    var w := Pow2(s / 2) * m;
    assert f == p * q;
    assert f * Pow2(s / 2) * m == f * w;
    assert f * w == p * (q * w);
    hide Pow2;
    if s % 2 == 0 {
      assert p * (q * w - 1) == p * (q * w) - p;
      EuclidUnique(p * (q * w) - 1, q * w - 1, p - 1, p);
    } else {
      EuclidUnique(p * (q * w) + 1, q * w, 1, p);
    }
  }

  lemma SkipKeeps(bits: seq<bool>, size: nat, primes: seq<nat>, count: nat, f: nat, kind: Kind, length: nat)
    requires AllPrime(primes) && count < |primes| && f % primes[count] == 0
    requires MapOk(bits, size, primes, count, f, kind, length)
    ensures MapOk(bits, size, primes, count + 1, f, kind, length)
  {
    hide Ruled, Hits;
    forall m: nat | m < size
      ensures bits[m] <==> Ruled(primes, count + 1, f, m, kind, length)
    {
      RuledNext(primes, count, f, m, kind, length);
      forall s: nat
        ensures !Hits(primes[count], f, m, s)
      {
        FactorNeverHits(primes[count], f, m, s);
      }
      assert !Divides(primes[count], f, m, kind, length, 2 * length);
    }
  }

  /** The inverse for the next pair of numbers. */
  lemma NextInverse(f: nat, inverse: int, half: int, p: nat, k: nat)
    requires p > 1 && f * Pow2(k) * inverse % p == 1 && 2 * half % p == 1
    ensures f * Pow2(k + 1) * (inverse * half) % p == 1
  {
    var a := f * Pow2(k);
    ProductOfOnes(a * inverse, 2 * half, p);
    Doubling(a, inverse, half);
    assert f * Pow2(k + 1) == 2 * a;
  }

  lemma Doubling(a: int, inverse: int, half: int)
    ensures (a * inverse) * (2 * half) == 2 * a * (inverse * half)
  {
    assert (a * inverse) * (2 * half) == 2 * ((a * inverse) * half);
    assert (a * inverse) * half == a * (inverse * half);
  }

  /** Marking a residue class in a bitmap. */
  method MarkClass(bits: array<bool>, size: nat, solved: nat, p: nat)
    requires solved < p && size <= bits.Length
    modifies bits
    ensures ClassMarked(old(bits[..]), bits[..], size, p, solved)
  {
    var m := solved;
    EuclidUnique(solved, 0, solved, p);
    while m < size
      invariant m % p == solved
      invariant forall k :: 0 <= k < size ==> (bits[k] <==> old(bits[k]) || (k < m && k % p == solved))
    {
      bits[m] := true;
      NothingBetween(m, p);
      ModOf(m + p, m, 1, p);
      m := m + p;
    }
  }

  lemma NothingBetween(m: nat, p: nat)
    requires p > 0
    ensures forall k :: m < k < m + p ==> k % p != m % p
  {
    forall k | m < k < m + p
      ensures k % p != m % p
    {
      if k % p == m % p {
        var t := ModDifference(k, m, p);
        SmallMultiple(t, p);
      }
    }
  }

  class CandidateSieve {
    const size: nat
    const length: nat
    const factor: nat
    const primes: seq<nat>
    const cunningham1: array<bool>
    const cunningham2: array<bool>
    const biTwin: array<bool>
    var primeSeq: nat
    var candidate: nat

    ghost predicate Shape() {
      && AllPrime(primes)
      && size <= cunningham1.Length && size <= cunningham2.Length && size <= biTwin.Length
      && cunningham1 != cunningham2 && cunningham1 != biTwin && cunningham2 != biTwin
    }

    /** Each bitmap marks exactly what the primes woven so far rule out. */
    ghost predicate Valid()
      reads this`primeSeq, cunningham1, cunningham2, biTwin
    {
      && Shape() && primeSeq <= |primes|
      && MapOk(cunningham1[..], size, primes, primeSeq, factor, Cunningham1, length)
      && MapOk(cunningham2[..], size, primes, primeSeq, factor, Cunningham2, length)
      && MapOk(biTwin[..], size, primes, primeSeq, factor, BiTwin, length)
    }

    constructor (size: nat, length: nat, factor: nat, primes: seq<nat>, maxSize: nat)
      requires size <= maxSize && AllPrime(primes)
      ensures Valid() && primeSeq == 0 && candidate == 0
      ensures this.size == size && this.length == length && this.factor == factor && this.primes == primes
      ensures fresh(cunningham1) && fresh(cunningham2) && fresh(biTwin)
    {
      this.size, this.length, this.factor, this.primes := size, length, factor, primes;
      primeSeq, candidate := 0, 0;
      cunningham1 := new bool[maxSize](_ => false);
      cunningham2 := new bool[maxSize](_ => false);
      biTwin := new bool[maxSize](_ => false);
    }

    /** The bitmaps while prime p is woven in. */
    ghost predicate Weaving(p: nat, n: nat)
      requires p > 0 && AllPrime(primes)
      reads this`primeSeq, cunningham1, cunningham2, biTwin
    {
      && MapPartly(cunningham1[..], size, primes, primeSeq, factor, Cunningham1, length, p, n)
      && MapPartly(cunningham2[..], size, primes, primeSeq, factor, Cunningham2, length, p, n)
      && MapPartly(biTwin[..], size, primes, primeSeq, factor, BiTwin, length, p, n)
    }

    /** One number of the sequence: mark the multipliers for which p divides it. */
    method WeaveNumber(p: nat, s: nat, solved: nat)
      requires Shape() && solved < p && s < 2 * length && Weaving(p, s)
      requires forall m :: 0 <= m < size ==> (Hits(p, factor, m, s) <==> m % p == solved)
      modifies cunningham1, cunningham2, biTwin
      ensures Weaving(p, s + 1)
    {
      hide MapPartly, ClassMarked, Hits, AllPrime;
      ghost var before1, before2, before3 := cunningham1[..], cunningham2[..], biTwin[..];
      if s < length {
        MarkClass(biTwin, size, solved, p);
      }
      ghost var after3 := biTwin[..];
      if s % 2 == 0 {
        MarkClass(cunningham1, size, solved, p);
      }
      if s % 2 == 1 {
        MarkClass(cunningham2, size, solved, p);
      }
      StepKeeps(before1, cunningham1[..], size, primes, primeSeq, factor, Cunningham1, length, p, s, solved);
      StepKeeps(before2, cunningham2[..], size, primes, primeSeq, factor, Cunningham2, length, p, s, solved);
      StepKeeps(before3, biTwin[..], size, primes, primeSeq, factor, BiTwin, length, p, s, solved);
    }

    /** Weave.  The inverse of the factor never fails, because the prime does not divide it; the inverse of 2 fails for
        the prime 2 exactly when the factor is odd, and then the sieve does not advance. */
    method Weave() returns (more: bool)
      requires Valid()
      modifies this`primeSeq, cunningham1, cunningham2, biTwin
      ensures Valid()
      ensures more <==> old(primeSeq) < |primes| && primes[old(primeSeq)] < size
                        && (primes[old(primeSeq)] == 2 ==> factor % 2 == 0)
      ensures primeSeq == old(primeSeq) + if more then 1 else 0
    {
      if primeSeq >= |primes| || primes[primeSeq] >= size {
        return false;
      }
      var p := primes[primeSeq];
      assert IsPrime(p);
      hide MapOk, MapPartly, Hits, ModInverse;
      if factor % p == 0 {
        SkipKeeps(cunningham1[..], size, primes, primeSeq, factor, Cunningham1, length);
        SkipKeeps(cunningham2[..], size, primes, primeSeq, factor, Cunningham2, length);
        SkipKeeps(biTwin[..], size, primes, primeSeq, factor, BiTwin, length);
      } else {
        InverseExists(factor, p);
        TwoHasInverse(p);
        if ModInverse(2, p).None? {
          return false;
        }
        StartWeaving(cunningham1[..], size, primes, primeSeq, factor, Cunningham1, length, p);
        StartWeaving(cunningham2[..], size, primes, primeSeq, factor, Cunningham2, length, p);
        StartWeaving(biTwin[..], size, primes, primeSeq, factor, BiTwin, length, p);
        WeavePrime(p);
        FinishWeaving(cunningham1[..], size, primes, primeSeq, factor, Cunningham1, length);
        FinishWeaving(cunningham2[..], size, primes, primeSeq, factor, Cunningham2, length);
        FinishWeaving(biTwin[..], size, primes, primeSeq, factor, BiTwin, length);
      }
      primeSeq := primeSeq + 1;
      more := true;
    }

    method WeavePrime(p: nat)
      requires Shape() && IsPrime(p) && p != 2 && factor % p != 0 && Weaving(p, 0)
      modifies cunningham1, cunningham2, biTwin
      ensures Weaving(p, 2 * length)
    {
      InverseExists(factor, p);
      TwoHasInverse(p);
      hide MapPartly, IsPrime, AllPrime, ModInverse;
      var inverse, half := ModInverse(factor, p).value, ModInverse(2, p).value;
      assert Pow2(0) == 1 && factor * Pow2(0) == factor;
      for s := 0 to 2 * length
        invariant Weaving(p, s)
        invariant factor * Pow2(s / 2) * inverse % p == 1
      {
        var delta := if s % 2 == 0 then -1 else 1;
        var solved := inverse * (p - delta) % p;
        forall m | 0 <= m < size
          ensures Hits(p, factor, m, s) <==> m % p == solved
        {
          SolvedBy(factor * Pow2(s / 2), inverse, p, delta, m);
        }
        if s % 2 == 1 {
          NextInverse(factor, inverse, half, p, s / 2);
          inverse := inverse * half;
        }
        HalfOf(s);
        WeaveNumber(p, s, solved);
      }
    }

    /** The next multiplier that some bitmap does not mark; bi-twin chains are preferred. */
    method GetNextCandidateMultiplier() returns (found: bool, multiplier: nat, kind: Kind)
      requires Valid()
      modifies this`candidate
      ensures found ==> multiplier == candidate < size && old(candidate) < multiplier
      ensures found ==> !Ruled(primes, primeSeq, factor, multiplier, kind, length)
      ensures found && kind != BiTwin ==> Ruled(primes, primeSeq, factor, multiplier, BiTwin, length)
      ensures found && kind == Cunningham2 ==> Ruled(primes, primeSeq, factor, multiplier, Cunningham1, length)
      ensures !found ==> candidate == 0
      ensures forall m, k :: old(candidate) < m < (if found then multiplier else size) ==>
                Ruled(primes, primeSeq, factor, m, k, length)
    {
      hide Ruled, AllPrime;
      multiplier, kind := 0, BiTwin;
      while true
        invariant old(candidate) <= candidate
        invariant forall m, k :: old(candidate) < m <= candidate ==> Ruled(primes, primeSeq, factor, m, k, length)
        invariant candidate == old(candidate) || candidate < size
        decreases size - candidate
      {
        candidate := candidate + 1;
        if candidate >= size {
          candidate := 0;
          return false, 0, BiTwin;
        }
        if !biTwin[candidate] {
          return true, candidate, BiTwin;
        }
        if !cunningham1[candidate] {
          return true, candidate, Cunningham1;
        }
        if !cunningham2[candidate] {
          return true, candidate, Cunningham2;
        }
        forall k: Kind
          ensures Ruled(primes, primeSeq, factor, candidate, k, length)
        {
          match k
          case Cunningham1 => assert cunningham1[..][candidate];
          case Cunningham2 => assert cunningham2[..][candidate];
          case BiTwin => assert biTwin[..][candidate];
        }
      }
    }
  }

  /** With an odd factor the sieve stops before its first prime: 3 is below the size and is never woven in. */
  method OddFactorStops() returns (sieve: CandidateSieve, more: bool)
    ensures fresh(sieve) && sieve.Valid() && sieve.factor == 1 && sieve.primes == [2, 3] && sieve.size == 4
    ensures !more && sieve.primeSeq == 0
  {
    sieve := new CandidateSieve(4, 3, 1, [2, 3], 10);
    more := sieve.Weave();
  }

  lemma HalfOf(s: nat)
    ensures (s + 1) / 2 == s / 2 + s % 2
  {
  }

  lemma TwoHasInverse(p: nat)
    requires IsPrime(p)
    ensures ModInverse(2, p).Some? <==> p != 2
    ensures p != 2 ==> 2 * ModInverse(2, p).value % p == 1
  {
    if p != 2 {
      EuclidUnique(2, 0, 2, p);
      InverseExists(2, p);
    } else {
      assert ExtendedGcd(0, 2).0 == 2;
    }
  }
}
