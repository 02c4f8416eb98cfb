/** Single bits of a number, and packing bits into bytes, least significant first. */
module Bits {
  import opened Arithmetic
  import opened Primitives

  /** (b >> i) & 1 */
  function BitOf(b: nat, i: nat): bool {
    if i == 0 then b % 2 == 1 else BitOf(b / 2, i - 1)
  }

  /** b | (1 << i) */
  function OrBit(b: nat, i: nat): nat {
    if i == 0 then (if b % 2 == 1 then b else b + 1) else 2 * OrBit(b / 2, i - 1) + b % 2
  }

  lemma {:induction false} BitOfOrBit(b: nat, i: nat, j: nat)
    ensures BitOf(OrBit(b, i), j) <==> i == j || BitOf(b, j)
  {
    if i > 0 && j > 0 {
      BitOfOrBit(b / 2, i - 1, j - 1);
    } else if i > 0 {
      assert OrBit(b, i) % 2 == b % 2;
    } else if j > 0 {
      assert OrBit(b, 0) / 2 == b / 2;
    }
  }

  lemma {:induction false} OrBitBound(b: nat, i: nat, m: nat)
    requires b < Pow2(m) && i < m
    ensures OrBit(b, i) < Pow2(m)
  {
    var half := Pow2(m - 1);
    assert Pow2(m) == 2 * half;
    if i > 0 {
      OrBitBound(b / 2, i - 1, m - 1);
      var o := OrBit(b / 2, i - 1);
      assert OrBit(b, i) == 2 * o + b % 2;
    }
  }

  lemma {:induction false} ZeroHasNoBits(i: nat)
    ensures !BitOf(0, i)
  {
    if i > 0 {
      ZeroHasNoBits(i - 1);
    }
  }

  lemma {:induction false} NonZeroHasBit(b: nat, m: nat)
    requires 0 < b < Pow2(m)
    ensures exists i :: 0 <= i < m && BitOf(b, i)
  {
    if b % 2 == 1 {
      assert BitOf(b, 0);
    } else {
      NonZeroHasBit(b / 2, m - 1);
      var i :| 0 <= i < m - 1 && BitOf(b / 2, i);
      assert BitOf(b, i + 1);
    }
  }

  function SetBit(b: Byte, i: nat): Byte
    requires i < 8
  {
    assert Pow2(8) == 256 by {
      assert Pow2(4) == 16;
    }
    OrBitBound(b, i, 8);
    OrBit(b, i)
  }

  /** Bit p of a byte sequence. */
  function BitAt(bytes: seq<Byte>, p: nat): bool
    requires p < 8 * |bytes|
  {
    BitOf(bytes[p / 8], p % 8)
  }

  /** Eight bits to the byte; the last byte is padded with zero bits. */
  method Pack(bits: seq<bool>) returns (bytes: seq<Byte>)
    ensures |bytes| == (|bits| + 7) / 8
    ensures forall p :: 0 <= p < 8 * |bytes| ==> BitAt(bytes, p) == (p < |bits| && bits[p])
  {
    bytes := seq((|bits| + 7) / 8, _ => 0);
    forall p: nat | p < 8 * |bytes|
      ensures !BitAt(bytes, p)
    {
      ZeroHasNoBits(p % 8);
    }
    for p := 0 to |bits|
      invariant |bytes| == (|bits| + 7) / 8
      invariant forall q :: 0 <= q < 8 * |bytes| ==> BitAt(bytes, q) == (q < p && bits[q])
    {
      if bits[p] {
        ghost var before := bytes;
        bytes := bytes[p / 8 := SetBit(bytes[p / 8], p % 8)];
        forall q: nat | q < 8 * |bytes|
          ensures BitAt(bytes, q) == (BitAt(before, q) || q == p)
        {
          BitOfOrBit(before[p / 8], p % 8, q % 8);
        }
      }
    }
  }

  method Unpack(bytes: seq<Byte>) returns (bits: seq<bool>)
    ensures |bits| == 8 * |bytes|
    ensures forall p :: 0 <= p < |bits| ==> bits[p] == BitAt(bytes, p)
  {
    bits := [];
    for p := 0 to 8 * |bytes|
      invariant |bits| == p
      invariant forall q :: 0 <= q < p ==> bits[q] == BitAt(bytes, q)
    {
      bits := bits + [BitAt(bytes, p)];
    }
  }
}
