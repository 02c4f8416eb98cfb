/** VARINT: numbers in groups of seven bits, most significant first, such that every number has exactly one encoding.
    A stream is the sequence of bytes still to be read. */
module VarInt {
  import opened Arithmetic
  import opened Primitives

  /** The bytes of n; all but the last byte of an encoding carry the continuation bit. */
  function EncodeWith(n: nat, last: bool): (r: seq<Byte>)
    ensures |r| >= 1
    decreases n, 1
  {
    Groups(n / 128) + [n % 128 + if last then 0 else 128]
  }

  /** The bytes that stand for the value q of the more significant groups, if there are any. */
  function Groups(q: nat): seq<Byte>
    decreases q, 0
  {
    if q == 0 then [] else EncodeWith(q - 1, false)
  }

  function Encode(n: nat): seq<Byte> {
    EncodeWith(n, true)
  }

  /** What is read after the groups that make up acc; None if the stream ends too early. */
  function DecodeFrom(s: seq<Byte>, acc: nat): Option<(nat, seq<Byte>)>
    decreases |s|
  {
    if s == [] then None
    else
      var n := acc * 128 + s[0] % 128;
      if s[0] >= 128 then DecodeFrom(s[1..], n + 1) else Some((n, s[1..]))
  }

  function Decode(s: seq<Byte>): Option<(nat, seq<Byte>)> {
    DecodeFrom(s, 0)
  }

  // ---------- The number that bytes stand for ----------

  /** All bytes but the last carry the continuation bit. */
  ghost predicate IsCode(a: seq<Byte>) {
    |a| > 0 && a[|a| - 1] < 128 && forall i :: 0 <= i < |a| - 1 ==> a[i] >= 128
  }

  function Pow128(e: nat): nat {
    if e == 0 then 1 else 128 * Pow128(e - 1)
  }

  /** Base 128, with one added to all digits but the last. */
  function DigitSum(a: seq<Byte>): nat
    requires |a| > 0
  {
    if |a| == 1 then a[0] % 128 else (a[0] % 128 + 1) * Pow128(|a| - 1) + DigitSum(a[1..])
  }

  lemma {:induction false} DecodeIsDigitSum(a: seq<Byte>, acc: nat)
    requires IsCode(a)
    ensures DecodeFrom(a, acc) == Some((acc * Pow128(|a|) + DigitSum(a), []))
  {
    if |a| == 1 {
      assert Pow128(1) == 128;
    } else {
      var n := acc * 128 + a[0] % 128 + 1;
      DecodeIsDigitSum(a[1..], n);
      Distribute(acc, a[0] % 128 + 1, Pow128(|a| - 1));
    }
  }

  lemma Distribute(x: int, d: int, p: int)
    ensures (x * 128 + d) * p == x * (128 * p) + d * p
  {
    assert (x * 128 + d) * p == x * 128 * p + d * p;
  }

  lemma {:induction false} GroupsContinue(q: nat)
    ensures forall i :: 0 <= i < |Groups(q)| ==> Groups(q)[i] >= 128
  {
    if q > 0 {
      var n := q - 1;
      GroupsContinue(n / 128);
      assert Groups(q) == Groups(n / 128) + [n % 128 + 128];
    }
  }

  /** What is written is a code, and stands for the number that was written. */
  lemma EncodeIsDigitSum(n: nat)
    ensures IsCode(Encode(n)) && DigitSum(Encode(n)) == n
  {
    GroupsContinue(n / 128);
    assert Encode(n) == Groups(n / 128) + [n % 128];
    assert IsCode(Encode(n));
    DecodeEncode(n, []);
    assert Encode(n) + [] == Encode(n);
    hide Encode, DigitSum, IsCode;
    DecodeIsDigitSum(Encode(n), 0);
  }

  /** Every code is what is written for the number it stands for. */
  lemma CodeIsEncode(a: seq<Byte>)
    requires IsCode(a)
    ensures Encode(DigitSum(a)) == a
  {
    DecodeIsDigitSum(a, 0);
    hide IsCode, DigitSum, DecodeFrom;
    EncodeDecode(a);
    assert Encode(DigitSum(a)) + [] == Encode(DigitSum(a));
  }

  lemma TwoDigits(a: Byte, b: Byte)
    requires a >= 128 && b < 128
    ensures Encode((a - 127) * 128 + b) == [a, b]
  {
    assert [a, b][1..] == [b] && Pow128(1) == 128;
    assert DigitSum([a, b]) == (a - 127) * 128 + b;
    CodeIsEncode([a, b]);
  }

  lemma ThreeDigits(a: Byte, b: Byte, c: Byte)
    requires a >= 128 && b >= 128 && c < 128
    ensures DigitSum([a, b, c]) == (a - 127) * 16384 + (b - 127) * 128 + c
    ensures Encode((a - 127) * 16384 + (b - 127) * 128 + c) == [a, b, c]
  {
    assert [a, b, c][1..] == [b, c] && [b, c][1..] == [c];
    assert Pow128(1) == 128 && Pow128(2) == 16384;
    assert DigitSum([c]) == c && DigitSum([b, c]) == (b - 127) * 128 + c;
    CodeIsEncode([a, b, c]);
  }

  lemma TwoTo32()
    ensures Encode(0x1_0000_0000) == [0x8E, 0xFE, 0xFE, 0xFF, 0x00]
  {
    var a: seq<Byte> := [0x8E, 0xFE, 0xFE, 0xFF, 0x00];
    ThreeDigits(0xFE, 0xFF, 0x00);
    assert a[1..] == [0xFE, 0xFE, 0xFF, 0x00] && a[1..][1..] == [0xFE, 0xFF, 0x00];
    assert Pow128(2) == 16384 && Pow128(4) == 16384 * Pow128(2) && Pow128(3) == 128 * Pow128(2);
    CodeIsEncode(a);
  }

  /** One byte up to 127, two up to 16511, three up to 2113663. */
  lemma EncodedSizes(n: nat)
    ensures |Encode(n)| == 1 <==> n < 128
    ensures |Encode(n)| == 2 <==> 128 <= n < 16512
    ensures |Encode(n)| == 3 <==> 16512 <= n < 2113664
  {
    var q := n / 128;
    if q > 0 {
      var p := (q - 1) / 128;
      assert |Groups(q)| == |Groups(p)| + 1;
      if p > 0 {
        assert |Groups(p)| == |Groups((p - 1) / 128)| + 1;
      }
    }
  }

  /** The examples in the documentation; for 16511 and 65535 it gives other bytes, which its own formula contradicts. */
  lemma Examples()
    ensures Encode(0) == [0x00] && Encode(127) == [0x7F] && Encode(128) == [0x80, 0x00] && Encode(255) == [0x80, 0x7F]
    ensures Encode(256) == [0x81, 0x00] && Encode(16383) == [0xFE, 0x7F] && Encode(16384) == [0xFF, 0x00]
    ensures Encode(16511) == [0xFF, 0x7F] && DigitSum([0x80, 0xFF, 0x7F]) == 32895
    ensures Encode(65535) == [0x82, 0xFE, 0x7F] && DigitSum([0x82, 0xFD, 0x7F]) == 65407
    ensures Encode(0x1_0000_0000) == [0x8E, 0xFE, 0xFE, 0xFF, 0x00]
  {
    hide Encode, DigitSum;
    TwoDigits(0x80, 0x00);
    TwoDigits(0x80, 0x7F);
    TwoDigits(0x81, 0x00);
    TwoDigits(0xFE, 0x7F);
    TwoDigits(0xFF, 0x00);
    TwoDigits(0xFF, 0x7F);
    ThreeDigits(0x82, 0xFE, 0x7F);
    ThreeDigits(0x80, 0xFF, 0x7F);
    ThreeDigits(0x82, 0xFD, 0x7F);
    TwoTo32();
    CodeIsEncode([0x00]);
    CodeIsEncode([0x7F]);
    OneDigit(0x00);
    OneDigit(0x7F);
  }

  lemma OneDigit(a: Byte)
    requires a < 128
    ensures DigitSum([a]) == a
  {
  }

  // ---------- One encoding for each number ----------

  lemma {:induction false} DecodeGroups(q: nat, rest: seq<Byte>)
    ensures DecodeFrom(Groups(q) + rest, 0) == DecodeFrom(rest, q)
  {
    if q > 0 {
      var n, byte: Byte := q - 1, (q - 1) % 128 + 128;
      DecodeGroups(n / 128, [byte] + rest);
      assert Groups(q) + rest == Groups(n / 128) + ([byte] + rest);
      assert ([byte] + rest)[1..] == rest;
    } else {
      assert Groups(q) + rest == rest;
    }
  }

  /** Reading back what was written, whatever follows it in the stream. */
  lemma DecodeEncode(n: nat, rest: seq<Byte>)
    ensures Decode(Encode(n) + rest) == Some((n, rest))
  {
    var byte: Byte := n % 128;
    DecodeGroups(n / 128, [byte] + rest);
    assert Encode(n) + rest == Groups(n / 128) + ([byte] + rest);
    assert ([byte] + rest)[1..] == rest;
  }

  lemma {:induction false} EncodeDecodeFrom(s: seq<Byte>, acc: nat)
    requires DecodeFrom(s, acc).Some?
    ensures var (n, rest) := DecodeFrom(s, acc).value; Groups(acc) + s == Encode(n) + rest
    decreases |s|
  {
    var m := acc * 128 + s[0] % 128;
    assert m / 128 == acc && m % 128 == s[0] % 128;
    assert EncodeWith(m, s[0] < 128) == Groups(acc) + [s[0]];
    if s[0] >= 128 {
      EncodeDecodeFrom(s[1..], m + 1);
    }
    assert Groups(acc) + s == Groups(acc) + [s[0]] + s[1..];
  }

  /** No redundancy: whatever can be read is what would have been written. */
  lemma EncodeDecode(s: seq<Byte>)
    requires Decode(s).Some?
    ensures var (n, rest) := Decode(s).value; s == Encode(n) + rest
  {
    EncodeDecodeFrom(s, 0);
    assert Groups(0) + s == s;
  }

  /** No encoding is the beginning of another one. */
  lemma PrefixFree(a: nat, b: nat)
    requires Encode(a) <= Encode(b)
    ensures a == b
  {
    var rest := Encode(b)[|Encode(a)|..];
    DecodeEncode(a, rest);
    DecodeEncode(b, []);
    assert Encode(a) + rest == Encode(b) + [];
  }

  // ---------- Sizes ----------

  /** A number of m bits takes at most (m + 6) / 7 bytes: the size of the buffer that WriteVarInt fills. */
  lemma {:induction false} FitsBuffer(n: nat, m: nat, last: bool)
    requires n < Pow2(m) && m > 0
    ensures |EncodeWith(n, last)| <= (m + 6) / 7
  {
    if n > 127 {
      assert Pow2(7) == 128 by {
        assert Pow2(4) == 16;
      }
      if m <= 7 {
        Pow2Monotone(m, 7);
        assert false;
      }
      Pow2Split(m - 7);
      FitsBuffer(n / 128 - 1, m - 7, false);
    }
  }

  // ---------- The loops ----------

  method GetSizeOfVarInt(n: nat) returns (size: nat)
    ensures size == |Encode(n)|
  {
    size := 1;
    var m := n;
    ghost var last := true;
    while m > 127
      invariant size - 1 + |EncodeWith(m, last)| == |Encode(n)|
    {
      m := m / 128 - 1;
      size := size + 1;
      last := false;
    }
  }

  function Reversed(s: seq<Byte>): seq<Byte> {
    if s == [] then [] else [s[|s| - 1]] + Reversed(s[..|s| - 1])
  }

  lemma ReversedSnoc(s: seq<Byte>, x: Byte)
    ensures Reversed(s + [x]) == [x] + Reversed(s)
  {
    assert (s + [x])[..|s|] == s;
  }

  /** The groups are collected from the least significant one on and written in reverse. */
  method WriteVarInt(os: seq<Byte>, n: nat) returns (r: seq<Byte>)
    ensures r == os + Encode(n)
  {
    hide Encode, EncodeWith, Groups, Reversed;
    var m := n;
    var tmp: seq<Byte> := [m % 128];
    FirstGroup(n);
    while m > 127
      invariant Groups(m / 128) + Reversed(tmp) == Encode(n)
    {
      NextGroup(m / 128, tmp);
      m := m / 128 - 1;
      tmp := tmp + [m % 128 + 128];
    }
    GroupsStep(0);
    r := WriteReversed(os, tmp);
  }

  lemma FirstGroup(n: nat)
    ensures Groups(n / 128) + Reversed([n % 128]) == Encode(n)
  {
    ReversedSnoc([], n % 128);
  }

  lemma NextGroup(q: nat, tmp: seq<Byte>)
    requires q > 0
    ensures Groups((q - 1) / 128) + Reversed(tmp + [(q - 1) % 128 + 128]) == Groups(q) + Reversed(tmp)
  {
    var low: Byte := (q - 1) % 128 + 128;
    GroupsStep(q);
    ReversedSnoc(tmp, low);
    hide Groups, Reversed;
    Associates(Groups((q - 1) / 128), [low], Reversed(tmp));
  }

  lemma Associates(a: seq<Byte>, b: seq<Byte>, c: seq<Byte>)
    ensures a + (b + c) == a + b + c
  {
  }

  lemma GroupsStep(q: nat)
    ensures Groups(q) == if q == 0 then [] else Groups((q - 1) / 128) + [(q - 1) % 128 + 128]
  {
  }

  method WriteReversed(os: seq<Byte>, tmp: seq<Byte>) returns (r: seq<Byte>)
    ensures r == os + Reversed(tmp)
  {
    r := os;
    var len := |tmp|;
    assert tmp[..len] == tmp;
    while len > 0
      invariant 0 <= len <= |tmp|
      invariant r + Reversed(tmp[..len]) == os + Reversed(tmp)
    {
      len := len - 1;
      assert tmp[..len + 1] == tmp[..len] + [tmp[len]];
      ReversedSnoc(tmp[..len], tmp[len]);
      r := r + [tmp[len]];
    }
  }

  method ReadVarInt(s: seq<Byte>) returns (r: Option<(nat, seq<Byte>)>)
    ensures r == Decode(s)
  {
    var n: nat, i := 0, 0;
    while i < |s|
      invariant 0 <= i <= |s|
      invariant DecodeFrom(s[i..], n) == Decode(s)
    {
      n := n * 128 + s[i] % 128;
      if s[i] < 128 {
        return Some((n, s[i + 1..]));
      }
      n := n + 1;
      i := i + 1;
    }
    r := None;
  }

  /** ReadVarInt into an unsigned type of that many bits: the number read modulo a power of two, from the same bytes.
      So a number that fits the type is read exactly, and one that does not wraps around without an error. */
  method ReadWord(s: seq<Byte>, width: nat) returns (r: Option<(nat, seq<Byte>)>)
    ensures r == match Decode(s)
                 case None => None
                 case Some((n, rest)) => Some((n % Pow2(width), rest))
  {
    var modulus := Pow2(width);
    var n: nat, i := 0, 0;
    ghost var exact: nat := 0;
    EuclidUnique(0, 0, 0, modulus);
    while i < |s|
      invariant 0 <= i <= |s| && n == exact % modulus
      invariant DecodeFrom(s[i..], exact) == Decode(s)
    {
      WrappedStep(exact, s[i] % 128, modulus);
      n := (n * 128 + s[i] % 128) % modulus;
      exact := exact * 128 + s[i] % 128;
      if s[i] < 128 {
        return Some((n, s[i + 1..]));
      }
      WrappedNext(exact, modulus);
      n := (n + 1) % modulus;
      exact := exact + 1;
      i := i + 1;
    }
    r := None;
  }

  lemma WrappedStep(exact: nat, digit: nat, modulus: nat)
    requires modulus > 0
    ensures (exact % modulus * 128 + digit) % modulus == (exact * 128 + digit) % modulus
  {
    var q := exact / modulus;
    assert exact == modulus * q + exact % modulus;
    assert modulus * q * 128 == modulus * (q * 128);
    ModOf(exact * 128 + digit, exact % modulus * 128 + digit, q * 128, modulus);
  }

  lemma WrappedNext(exact: nat, modulus: nat)
    requires modulus > 0
    ensures (exact % modulus + 1) % modulus == (exact + 1) % modulus
  {
    ModOf(exact + 1, exact % modulus + 1, exact / modulus, modulus);
  }
}
