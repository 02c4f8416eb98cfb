/** CompressAmount and DecompressAmount: amounts are mostly round, so trailing zeros are stored as an exponent. */
module Amount {
  import opened Primitives

  /** n without its trailing zeros, of which at most limit are taken off, and how many those are. */
  function Strip(n: nat, limit: nat): (r: (nat, nat))
    requires n > 0
    ensures r.0 > 0 && r.1 <= limit && (r.1 < limit ==> r.0 % 10 != 0)
    decreases limit
  {
    if n % 10 == 0 && limit > 0 then
      var (m, e) := Strip(n / 10, limit - 1);
      (m, e + 1)
    else (n, 0)
  }

  lemma StripStep(n: nat, limit: nat)
    requires n > 0
    ensures if n % 10 == 0 && limit > 0
            then n / 10 > 0 && Strip(n, limit) == (Strip(n / 10, limit - 1).0, Strip(n / 10, limit - 1).1 + 1)
            else Strip(n, limit) == (n, 0)
  {
  }

  lemma {:induction false} StripValue(n: nat, limit: nat)
    requires n > 0
    ensures var (m, e) := Strip(n, limit); n == m * Pow10(e)
    decreases limit
  {
    if n % 10 == 0 && limit > 0 {
      StripValue(n / 10, limit - 1);
      var (m, e) := Strip(n / 10, limit - 1);
      TimesTen(m, Pow10(e));
    } else {
      assert n * Pow10(0) == n;
    }
  }

  function Pow10(e: nat): (r: nat)
    ensures r > 0
  {
    if e == 0 then 1 else 10 * Pow10(e - 1)
  }

  lemma TimesTen(m: nat, p: nat)
    ensures m * (10 * p) == 10 * (m * p)
  {
  }

  /** A stripped number and its exponent as one number. */
  function Packed(m: nat, e: nat): nat
    requires m > 0 && e <= 9 && (e < 9 ==> m % 10 != 0)
  {
    if e < 9 then 1 + (m / 10 * 9 + m % 10 - 1) * 10 + e else 1 + (m - 1) * 10 + 9
  }

  function Exponent(x: nat): nat
    requires x > 0
  {
    (x - 1) % 10
  }

  function Mantissa(x: nat): nat
    requires x > 0
  {
    var y := (x - 1) / 10;
    if Exponent(x) < 9 then y / 9 * 10 + y % 9 + 1 else y + 1
  }

  lemma UnpackPacked(m: nat, e: nat)
    requires m > 0 && e <= 9 && (e < 9 ==> m % 10 != 0)
    ensures var x := Packed(m, e); x > 0 && Exponent(x) == e && Mantissa(x) == m
  {
    if e < 9 {
      LastDigit(m / 10, m % 10, e);
    } else {
      assert ((m - 1) * 10 + 9) / 10 == m - 1;
    }
  }

  /** The digit d and the exponent e can be told apart from the rest. */
  lemma LastDigit(q: nat, d: nat, e: nat)
    requires 1 <= d <= 9 && e <= 9
    ensures var y := q * 9 + d - 1; y / 9 == q && y % 9 == d - 1 && (y * 10 + e) / 10 == y && (y * 10 + e) % 10 == e
  {
  }

  function Compressed(n: nat): nat {
    if n == 0 then 0 else var (m, e) := Strip(n, 9); Packed(m, e)
  }

  function Decompressed(x: nat): nat {
    if x == 0 then 0 else Mantissa(x) * Pow10(Exponent(x))
  }

  lemma {:induction false} StripShifted(n: nat, e: nat, limit: nat)
    requires n > 0 && e <= limit && (e < limit ==> n % 10 != 0)
    ensures n * Pow10(e) > 0 && Strip(n * Pow10(e), limit) == (n, e)
    decreases e
  {
    if e == 0 {
      assert n * Pow10(0) == n;
    } else {
      StripShifted(n, e - 1, limit - 1);
      TimesTen(n, Pow10(e - 1));
    }
  }

  /** The documented form: a number x with e < 9 zeros at the end, last other digit d and n in front of that is
      1 + 10 (9 n + d - 1) + e. */
  lemma CompressMeans(x: nat, n: nat, d: nat, e: nat)
    requires 1 <= d <= 9 && e < 9 && x == (10 * n + d) * Pow10(e)
    ensures Compressed(x) == 1 + 10 * (9 * n + d - 1) + e
  {
    var m := 10 * n + d;
    assert m / 10 == n && m % 10 == d;
    hide Pow10, Compressed;
    CompressedOf(x, m, e);
  }

  /** Of more zeros nine are taken off, and 0 is 0. */
  lemma CompressWhole(n: nat)
    ensures Compressed(n * 1_000_000_000) == if n == 0 then 0 else 1 + 10 * (n - 1) + 9
  {
    if n > 0 {
      assert Pow10(9) == 1_000_000_000;
      hide Pow10, Compressed;
      CompressedOf(n * 1_000_000_000, n, 9);
    }
  }

  lemma CompressedOf(x: nat, m: nat, e: nat)
    requires m > 0 && e <= 9 && (e < 9 ==> m % 10 != 0) && x == m * Pow10(e)
    ensures Compressed(x) == Packed(m, e)
  {
    hide Strip, Pow10, Packed;
    StripShifted(m, e, 9);
  }

  lemma DecompressCompress(n: nat)
    ensures Decompressed(Compressed(n)) == n
  {
    hide Strip, Pow10, Packed, Mantissa, Exponent;
    if n > 0 {
      var (m, e) := Strip(n, 9);
      StripValue(n, 9);
      UnpackPacked(m, e);
    }
  }

  lemma StripTenfold(n: nat, limit: nat)
    requires n > 0 && limit > 0
    ensures Strip(10 * n, limit) == (Strip(n, limit - 1).0, Strip(n, limit - 1).1 + 1)
  {
    assert (10 * n) % 10 == 0 && (10 * n) / 10 == n;
  }

  /** A number is stripped to m and e in only one way. */
  lemma {:induction false} StripUnique(m: nat, e: nat, limit: nat)
    requires m > 0 && e <= limit && (e < limit ==> m % 10 != 0)
    ensures m * Pow10(e) > 0 && Strip(m * Pow10(e), limit) == (m, e)
    decreases limit
  {
    if e > 0 {
      StripUnique(m, e - 1, limit - 1);
      TimesTen(m, Pow10(e - 1));
      assert m * Pow10(e) == 10 * (m * Pow10(e - 1));
      hide Strip, Pow10;
      StripTenfold(m * Pow10(e - 1), limit);
    } else {
      assert m * Pow10(0) == m;
    }
  }

  /** Every number is the compressed form of some amount. */
  lemma CompressDecompress(x: nat)
    ensures Compressed(Decompressed(x)) == x
  {
    if x > 0 {
      var e, y := (x - 1) % 10, (x - 1) / 10;
      var m := if e < 9 then y / 9 * 10 + y % 9 + 1 else y + 1;
      assert e < 9 ==> m / 10 == y / 9 && m % 10 == y % 9 + 1;
      StripUnique(m, e, 9);
    }
  }

  /** No amount of money overflows 64 bits on the way. */
  lemma CompressedFits(n: nat)
    requires MoneyRange(n)
    ensures Compressed(n) <= 9 * n + 9 < 0x1_0000_0000_0000_0000
  {
    if n > 0 {
      var (m, e) := Strip(n, 9);
      StripValue(n, 9);
      hide Strip;
      if e < 9 {
        assert Compressed(n) <= 9 * m + e;
        GrowsWithExponent(m, e);
      } else {
        assert Compressed(n) == 10 * m;
        assert Pow10(9) == 1_000_000_000 by {
          assert Pow10(3) == 1000;
          assert Pow10(6) == 1_000_000;
        }
      }
    }
  }

  lemma GrowsWithExponent(m: nat, e: nat)
    requires m > 0
    ensures m + e <= m * Pow10(e)
  {
    if e > 0 {
      GrowsWithExponent(m, e - 1);
      TimesTen(m, Pow10(e - 1));
    }
  }

  /** m is n with e zeros taken off, and there may be more. */
  ghost predicate StrippedTo(n: nat, m: nat, e: nat)
    requires n > 0
  {
    m > 0 && e <= 9 && Strip(n, 9) == (Strip(m, 9 - e).0, e + Strip(m, 9 - e).1)
  }

  lemma StripNext(n: nat, m: nat, e: nat)
    requires n > 0 && StrippedTo(n, m, e)
    ensures if m % 10 == 0 && e < 9 then StrippedTo(n, m / 10, e + 1) else Strip(n, 9) == (m, e)
  {
    StripStep(m, 9 - e);
    hide Strip;
  }

  method StripZeros(n: nat) returns (m: nat, e: nat)
    requires n > 0
    ensures (m, e) == Strip(n, 9)
  {
    m, e := n, 0;
    assert StrippedTo(n, m, e);
    hide StrippedTo, Strip;
    while m % 10 == 0 && e < 9
      invariant StrippedTo(n, m, e)
      decreases 9 - e
    {
      StripNext(n, m, e);
      m, e := m / 10, e + 1;
    }
    StripNext(n, m, e);
  }

  method CompressAmount(n: nat) returns (x: nat)
    ensures x == Compressed(n)
  {
    hide Strip;
    if n == 0 {
      return 0;
    }
    var m, e := StripZeros(n);
    if e < 9 {
      var d := m % 10;
      assert 1 <= d <= 9;
      m := m / 10;
      return 1 + (m * 9 + d - 1) * 10 + e;
    } else {
      return 1 + (m - 1) * 10 + 9;
    }
  }

  method DecompressAmount(x: nat) returns (n: nat)
    ensures n == Decompressed(x)
  {
    hide Pow10;
    if x == 0 {
      return 0;
    }
    var y := x - 1;
    var e := y % 10;
    y := y / 10;
    if e < 9 {
      var d := y % 9 + 1;
      y := y / 9;
      n := y * 10 + d;
    } else {
      n := y + 1;
    }
    assert n * Pow10(e) == Decompressed(x);
    hide Decompressed;
    while e > 0
      invariant 0 <= e && n * Pow10(e) == Decompressed(x)
    {
      OneMore(n, e - 1);
      n, e := n * 10, e - 1;
    }
    OneMore(n, 0);
  }

  lemma OneMore(n: nat, e: nat)
    ensures n * Pow10(e + 1) == n * 10 * Pow10(e) && n * Pow10(0) == n
  {
    TimesTen(n, Pow10(e));
  }
}
