/** CCoins in the database: a header code, a bit mask of the unspent outputs, and the outputs themselves. */
module CoinsCodec {
  import opened Arithmetic
  import opened Primitives
  import opened Bits
  import opened Coins
  import opened ScriptCodec
  import Amount
  import VarInt

  predicate Avail(vout: seq<TxOut>, i: nat) {
    i < |vout| && !vout[i].IsNull()
  }

  ghost predicate NoneAvail(vout: seq<TxOut>, lo: nat, hi: nat) {
    forall k :: lo <= k < hi ==> !Avail(vout, k)
  }

  /** Concatenation of streams. */
  function Then(a: seq<Byte>, b: seq<Byte>): seq<Byte> {
    a + b
  }

  // ---------- The mask ----------

  /** Byte b of the mask after looking at its first n outputs; the first two outputs are not in the mask. */
  function MaskTo(vout: seq<TxOut>, b: nat, n: nat): Byte
    requires n <= 8
  {
    if n == 0 then 0
    else
      var before := MaskTo(vout, b, n - 1);
      if Avail(vout, 2 + 8 * b + n - 1) then SetBit(before, n - 1) else before
  }

  function MaskByte(vout: seq<TxOut>, b: nat): Byte {
    MaskTo(vout, b, 8)
  }

  lemma {:induction false} MaskToBit(vout: seq<TxOut>, b: nat, n: nat, p: nat)
    requires n <= 8
    ensures BitOf(MaskTo(vout, b, n), p) <==> p < n && Avail(vout, 2 + 8 * b + p)
  {
    if n == 0 {
      ZeroHasNoBits(p);
    } else {
      MaskToBit(vout, b, n - 1, p);
      BitOfOrBit(MaskTo(vout, b, n - 1), n - 1, p);
    }
  }

  lemma MaskByteZero(vout: seq<TxOut>, b: nat)
    ensures MaskByte(vout, b) == 0 <==> NoneAvail(vout, 2 + 8 * b, 10 + 8 * b)
  {
    var byte := MaskByte(vout, b);
    forall k | 2 + 8 * b <= k < 10 + 8 * b
      ensures BitOf(byte, k - 2 - 8 * b) == Avail(vout, k)
      ensures byte == 0 ==> !Avail(vout, k)
    {
      MaskToBit(vout, b, 8, k - 2 - 8 * b);
      ZeroHasNoBits(k - 2 - 8 * b);
    }
    if byte != 0 {
      assert Pow2(8) == 256 by {
        assert Pow2(4) == 16;
      }
      NonZeroHasBit(byte, 8);
      var p :| 0 <= p < 8 && BitOf(byte, p);
      MaskToBit(vout, b, 8, p);
    }
  }

  /** How many of the mask bytes from lo up to hi are not zero. */
  function Nonzero(vout: seq<TxOut>, lo: nat, hi: nat): nat
    decreases hi - lo
  {
    if lo >= hi then 0 else (if MaskByte(vout, lo) != 0 then 1 else 0) + Nonzero(vout, lo + 1, hi)
  }

  lemma {:induction false} NonzeroSnoc(vout: seq<TxOut>, lo: nat, hi: nat)
    requires lo <= hi
    ensures Nonzero(vout, lo, hi + 1) == Nonzero(vout, lo, hi) + if MaskByte(vout, hi) != 0 then 1 else 0
    decreases hi - lo
  {
    if lo < hi {
      NonzeroSnoc(vout, lo + 1, hi);
    } else {
      assert Nonzero(vout, hi + 1, hi + 1) == 0;
    }
  }

  /** n is the number of mask bytes that are written: up to the last one that is not zero. */
  ghost predicate IsMaskSize(vout: seq<TxOut>, n: nat) {
    && (n > 0 ==> MaskByte(vout, n - 1) != 0)
    && NoneAvail(vout, 2 + 8 * n, |vout|)
  }

  /** CalcMaskSize. */
  method CalcMaskSize(vout: seq<TxOut>) returns (bytes: nat, nonzero: nat)
    ensures IsMaskSize(vout, bytes) && nonzero == Nonzero(vout, 0, bytes)
  {
    bytes, nonzero := 0, 0;
    var b := 0;
    while 2 + 8 * b < |vout|
      invariant bytes <= b
      invariant bytes > 0 ==> MaskByte(vout, bytes - 1) != 0
      invariant NoneAvail(vout, 2 + 8 * bytes, 2 + 8 * b)
      invariant nonzero == Nonzero(vout, 0, bytes) == Nonzero(vout, 0, b)
    {
      var zero := true;
      var i := 0;
      while i < 8 && 2 + 8 * b + i < |vout|
        invariant 0 <= i <= 8
        invariant zero <==> NoneAvail(vout, 2 + 8 * b, 2 + 8 * b + i)
      {
        if !vout[2 + 8 * b + i].IsNull() {
          assert Avail(vout, 2 + 8 * b + i);
          zero := false;
        }
        i := i + 1;
      }
      MaskByteZero(vout, b);
      NonzeroSnoc(vout, 0, b);
      assert zero <==> NoneAvail(vout, 2 + 8 * b, 10 + 8 * b);
      if !zero {
        bytes, nonzero := b + 1, nonzero + 1;
      }
      b := b + 1;
    }
  }

  function Mask(vout: seq<TxOut>, lo: nat, hi: nat): seq<Byte>
    decreases hi - lo
  {
    if lo >= hi then [] else [MaskByte(vout, lo)] + Mask(vout, lo + 1, hi)
  }

  function ByteBits(byte: Byte): (r: seq<bool>)
    ensures |r| == 8
  {
    seq(8, i requires 0 <= i < 8 => BitOf(byte, i))
  }

  /** The loop that reads mask bytes until it has seen as many nonzero ones as were announced. */
  function ReadMask(stream: seq<Byte>, nonzero: nat, avail: seq<bool>): Option<(seq<bool>, seq<Byte>)>
    decreases |stream|
  {
    if nonzero == 0 then Some((avail, stream))
    else if stream == [] then None
    else ReadMask(stream[1..], if stream[0] != 0 then nonzero - 1 else nonzero, avail + ByteBits(stream[0]))
  }

  /** The availability of the outputs from lo on up to hi. */
  function Bitmap(vout: seq<TxOut>, lo: nat, hi: nat): (r: seq<bool>)
    requires lo <= hi
    ensures |r| == hi - lo
  {
    seq(hi - lo, i requires 0 <= i < hi - lo => Avail(vout, lo + i))
  }

  lemma BitmapSnoc(vout: seq<TxOut>, b: nat)
    ensures Bitmap(vout, 0, 2 + 8 * b) + ByteBits(MaskByte(vout, b)) == Bitmap(vout, 0, 2 + 8 * (b + 1))
  {
    forall p: nat | p < 8
      ensures ByteBits(MaskByte(vout, b))[p] == Avail(vout, 2 + 8 * b + p)
    {
      MaskToBit(vout, b, 8, p);
    }
  }

  /** The reader stops exactly after the last mask byte. */
  lemma {:induction false} ReadMaskBack(vout: seq<TxOut>, b: nat, n: nat, rest: seq<Byte>)
    requires b <= n && IsMaskSize(vout, n)
    ensures ReadMask(Mask(vout, b, n) + rest, Nonzero(vout, b, n), Bitmap(vout, 0, 2 + 8 * b))
         == Some((Bitmap(vout, 0, 2 + 8 * n), rest))
    decreases n - b
  {
    var stream := Mask(vout, b, n) + rest;
    if b < n {
      NonzeroAhead(vout, b, n);
      BitmapSnoc(vout, b);
      ReadMaskBack(vout, b + 1, n, rest);
      assert stream[0] == MaskByte(vout, b);
      assert stream[1..] == Mask(vout, b + 1, n) + rest;
    } else {
      assert stream == rest;
    }
  }

  lemma {:induction false} NonzeroAhead(vout: seq<TxOut>, b: nat, n: nat)
    requires b < n && MaskByte(vout, n - 1) != 0
    ensures Nonzero(vout, b, n) > 0
    decreases n - b
  {
    if b < n - 1 {
      NonzeroAhead(vout, b + 1, n);
    }
  }

  // ---------- The whole record ----------

  function Flag(b: bool, weight: nat): nat {
    if b then weight else 0
  }

  /** The header code. */
  function Code(c: Coins, nonzero: nat): nat
    requires Avail(c.vout, 0) || Avail(c.vout, 1) || nonzero > 0
  {
    var first, second := Avail(c.vout, 0), Avail(c.vout, 1);
    8 * (nonzero - Flag(!first && !second, 1)) + Flag(c.coinBase, 1) + Flag(first, 2) + Flag(second, 4)
  }

  /** What the reader makes of the header code. */
  lemma CodeReadBack(c: Coins, nonzero: nat)
    requires Avail(c.vout, 0) || Avail(c.vout, 1) || nonzero > 0
    ensures var code := Code(c, nonzero);
            && (code % 2 == 1 <==> c.coinBase)
            && (code / 2 % 2 == 1 <==> Avail(c.vout, 0))
            && (code / 4 % 2 == 1 <==> Avail(c.vout, 1))
            && code / 8 + Flag(code / 2 % 4 == 0, 1) == nonzero
  {
    var first, second := Avail(c.vout, 0), Avail(c.vout, 1);
    hide Avail;
    Octal(nonzero - Flag(!first && !second, 1), c.coinBase, first, second);
  }

  lemma Octal(n: nat, a: bool, b: bool, c: bool)
    ensures var code := 8 * n + Flag(a, 1) + Flag(b, 2) + Flag(c, 4);
            && (code % 2 == 1 <==> a) && (code / 2 % 2 == 1 <==> b) && (code / 4 % 2 == 1 <==> c)
            && (code / 2 % 4 == 0 <==> !b && !c) && code / 8 == n
  {
    var code := 8 * n + Flag(a, 1) + Flag(b, 2) + Flag(c, 4);
    assert code / 4 == 2 * n + Flag(c, 1);
    assert code / 2 == 4 * n + Flag(b, 1) + Flag(c, 2);
    assert code == 2 * (4 * n + Flag(b, 1) + Flag(c, 2)) + Flag(a, 1);
  }

  /** No unspent output has a negative amount. */
  ghost predicate NonNegative(vout: seq<TxOut>) {
    forall i :: 0 <= i < |vout| && !vout[i].IsNull() ==> vout[i].value >= 0
  }

  function Outs(k: Curve, vout: seq<TxOut>, from: nat): seq<Byte>
    requires NonNegative(vout)
    decreases |vout| - from
  {
    if from >= |vout| then []
    else (if vout[from].IsNull() then [] else PutOut(k, vout[from])) + Outs(k, vout, from + 1)
  }

  function ReadOuts(k: Curve, stream: seq<Byte>, avail: seq<bool>): Option<(seq<TxOut>, seq<Byte>)>
    decreases |avail|
  {
    if avail == [] then Some(([], stream))
    else if avail[0] then
      match GetOut(k, stream)
      case None => None
      case Some((o, rest)) =>
        (match ReadOuts(k, rest, avail[1..])
         case None => None
         case Some((outs, rest')) => Some(([o] + outs, rest')))
    else
      match ReadOuts(k, stream, avail[1..])
      case None => None
      case Some((outs, rest')) => Some(([NULL_OUT] + outs, rest'))
  }

  /** What is read for the outputs from lo up to hi, padded with spent ones. */
  function Padded(vout: seq<TxOut>, lo: nat, hi: nat): (r: seq<TxOut>)
    requires lo <= hi
    ensures |r| == hi - lo
  {
    seq(hi - lo, i requires 0 <= i < hi - lo => if Avail(vout, lo + i) then vout[lo + i] else NULL_OUT)
  }

  lemma Amounts(vout: seq<TxOut>, i: nat)
    requires NonNegative(vout) && Avail(vout, i)
    ensures i < |vout| && vout[i].value >= 0
  {
  }

  lemma NextOut(k: Curve, vout: seq<TxOut>, lo: nat, hi: nat, rest: seq<Byte>)
    requires lo < hi && NonNegative(vout)
    ensures Bitmap(vout, lo, hi) == [Avail(vout, lo)] + Bitmap(vout, lo + 1, hi)
    ensures Padded(vout, lo, hi) == [if Avail(vout, lo) then vout[lo] else NULL_OUT] + Padded(vout, lo + 1, hi)
    ensures Then(Outs(k, vout, lo), rest)
         == var tail := Then(Outs(k, vout, lo + 1), rest);
            if Avail(vout, lo) then Then(PutOut(k, vout[lo]), tail) else tail
  {
    hide PutOut;
    assert !Avail(vout, lo) ==> Outs(k, vout, lo) == Outs(k, vout, lo + 1);
  }

  lemma {:induction false} ReadOutsBack(k: Curve, vout: seq<TxOut>, lo: nat, hi: nat, rest: seq<Byte>)
    requires Recovers(k) && |vout| <= hi && lo <= hi
    requires NonNegative(vout)
    ensures ReadOuts(k, Then(Outs(k, vout, lo), rest), Bitmap(vout, lo, hi)) == Some((Padded(vout, lo, hi), rest))
    decreases hi - lo
  {
    if lo < hi {
      hide Then, GetOut, PutOut, Recovers, Outs, Bitmap, Padded, NonNegative, ReadOuts;
      ReadOutsBack(k, vout, lo + 1, hi, rest);
      OneOutBack(k, vout, lo, hi, rest);
    } else {
      assert Then(Outs(k, vout, lo), rest) == rest;
    }
  }

  lemma OneOutBack(k: Curve, vout: seq<TxOut>, lo: nat, hi: nat, rest: seq<Byte>)
    requires Recovers(k) && |vout| <= hi && lo < hi && NonNegative(vout)
    requires ReadOuts(k, Then(Outs(k, vout, lo + 1), rest), Bitmap(vout, lo + 1, hi))
               == Some((Padded(vout, lo + 1, hi), rest))
    ensures ReadOuts(k, Then(Outs(k, vout, lo), rest), Bitmap(vout, lo, hi)) == Some((Padded(vout, lo, hi), rest))
  {
    hide Then, GetOut, PutOut, Recovers, Outs, Bitmap, Padded, NonNegative, ReadOuts, Avail;
    NextOut(k, vout, lo, hi, rest);
    ReadOutsStep(k, Then(Outs(k, vout, lo), rest), Avail(vout, lo), Bitmap(vout, lo + 1, hi));
    if Avail(vout, lo) {
      Amounts(vout, lo);
      OutBack(k, vout[lo], Then(Outs(k, vout, lo + 1), rest));
    }
  }

  lemma OutBack(k: Curve, o: TxOut, rest: seq<Byte>)
    requires Recovers(k) && o.value >= 0
    ensures GetOut(k, Then(PutOut(k, o), rest)) == Some((o, rest))
  {
    GetPutOut(k, o, rest);
  }

  lemma ReadOutsStep(k: Curve, stream: seq<Byte>, first: bool, avail: seq<bool>)
    ensures first && GetOut(k, stream).Some? && ReadOuts(k, GetOut(k, stream).value.1, avail).Some? ==>
              var (outs, rest) := ReadOuts(k, GetOut(k, stream).value.1, avail).value;
              ReadOuts(k, stream, [first] + avail) == Some(([GetOut(k, stream).value.0] + outs, rest))
    ensures !first && ReadOuts(k, stream, avail).Some? ==>
              var (outs, rest) := ReadOuts(k, stream, avail).value;
              ReadOuts(k, stream, [first] + avail) == Some(([NULL_OUT] + outs, rest))
  {
    hide GetOut;
    assert ([first] + avail)[1..] == avail;
  }

  /** Cleanup removes the padding. */
  lemma {:induction false} TrimPadded(c: Coins, hi: nat)
    requires c.Canonical() && |c.vout| <= hi
    ensures Trim(Padded(c.vout, 0, hi)) == c.vout
    decreases hi
  {
    var p := Padded(c.vout, 0, hi);
    if |c.vout| < hi {
      TrimPadded(c, hi - 1);
      assert p[..hi - 1] == Padded(c.vout, 0, hi - 1) && p[hi - 1] == NULL_OUT;
    } else {
      assert p == c.vout;
    }
  }

  /** What may be stored: some output is unspent, and nothing that is written as a VARINT is negative. */
  ghost predicate Storable(c: Coins) {
    && c.Canonical() && !c.IsPruned()
    && c.version >= 0 && c.height >= 0
    && NonNegative(c.vout)
  }

  /** The assertion that there is something to write. */
  lemma SomethingUnspent(c: Coins, n: nat)
    requires !c.IsPruned() && IsMaskSize(c.vout, n)
    ensures Avail(c.vout, 0) || Avail(c.vout, 1) || Nonzero(c.vout, 0, n) > 0
  {
    var i :| 0 <= i < |c.vout| && !c.vout[i].IsNull();
    assert Avail(c.vout, i);
    if i >= 2 {
      assert n > 0;
      NonzeroAhead(c.vout, 0, n);
    }
  }

  lemma MaskSizeUnique(vout: seq<TxOut>, m: nat, n: nat)
    requires IsMaskSize(vout, m) && IsMaskSize(vout, n)
    ensures m == n
  {
    if m < n {
      MaskByteZero(vout, n - 1);
    } else if n < m {
      MaskByteZero(vout, m - 1);
    }
  }

  /** The stored bytes, with a mask of n bytes. */
  function Bytes(k: Curve, c: Coins, n: nat): seq<Byte>
    requires Storable(c) && IsMaskSize(c.vout, n)
  {
    SomethingUnspent(c, n);
    VarInt.Encode(c.version) + (VarInt.Encode(Code(c, Nonzero(c.vout, 0, n)))
      + (Mask(c.vout, 0, n) + (Outs(k, c.vout, 0) + VarInt.Encode(c.height))))
  }

  function Parse(k: Curve, stream: seq<Byte>): Option<(Coins, seq<Byte>)> {
    match VarInt.Decode(stream)
    case None => None
    case Some((version, s1)) =>
      match VarInt.Decode(s1)
      case None => None
      case Some((code, s2)) =>
        ParseBody(k, s2, version, code % 2 == 1, [code / 2 % 2 == 1, code / 4 % 2 == 1],
                  code / 8 + Flag(code / 2 % 4 == 0, 1))
  }

  function ParseBody(k: Curve, s2: seq<Byte>, version: nat, coinBase: bool, start: seq<bool>,
                     nonzero: nat): Option<(Coins, seq<Byte>)>
  {
    match ReadMask(s2, nonzero, start)
    case None => None
    case Some((avail, s3)) =>
      match ReadOuts(k, s3, avail)
      case None => None
      case Some((outs, s4)) =>
        match VarInt.Decode(s4)
        case None => None
        case Some((height, rest)) => Some((Coins(coinBase, Trim(outs), height, version), rest))
  }

  lemma WholeBitmap(vout: seq<TxOut>, n: nat)
    requires IsMaskSize(vout, n) && (|vout| > 0 ==> !vout[|vout| - 1].IsNull())
    ensures |vout| <= 2 + 8 * n
    ensures Bitmap(vout, 0, 2) == [Avail(vout, 0), Avail(vout, 1)]
  {
    assert |vout| > 0 ==> Avail(vout, |vout| - 1);
  }

  lemma ParseBodySteps(k: Curve, s2: seq<Byte>, version: nat, coinBase: bool, start: seq<bool>, nonzero: nat,
                       avail: seq<bool>, s3: seq<Byte>, outs: seq<TxOut>, s4: seq<Byte>, height: nat, rest: seq<Byte>)
    requires ReadMask(s2, nonzero, start) == Some((avail, s3)) && ReadOuts(k, s3, avail) == Some((outs, s4))
    requires VarInt.Decode(s4) == Some((height, rest))
    ensures ParseBody(k, s2, version, coinBase, start, nonzero)
              == Some((Coins(coinBase, Trim(outs), height, version), rest))
  {
    hide ReadMask, ReadOuts, VarInt.Decode, Trim;
  }

  lemma ParseSteps(k: Curve, stream: seq<Byte>, version: nat, s1: seq<Byte>, code: nat, s2: seq<Byte>)
    requires VarInt.Decode(stream) == Some((version, s1)) && VarInt.Decode(s1) == Some((code, s2))
    ensures Parse(k, stream) == ParseBody(k, s2, version, code % 2 == 1, [code / 2 % 2 == 1, code / 4 % 2 == 1],
                                          code / 8 + Flag(code / 2 % 4 == 0, 1))
  {
    hide VarInt.Decode, ParseBody, Flag;
  }

  lemma NumberBack(n: nat, rest: seq<Byte>)
    ensures VarInt.Decode(Then(VarInt.Encode(n), rest)) == Some((n, rest))
  {
    VarInt.DecodeEncode(n, rest);
  }

  lemma MaskBack(vout: seq<TxOut>, n: nat, rest: seq<Byte>)
    requires IsMaskSize(vout, n)
    ensures ReadMask(Then(Mask(vout, 0, n), rest), Nonzero(vout, 0, n), [Avail(vout, 0), Avail(vout, 1)])
         == Some((Bitmap(vout, 0, 2 + 8 * n), rest))
  {
    ReadMaskBack(vout, 0, n, rest);
    assert Bitmap(vout, 0, 2) == [Avail(vout, 0), Avail(vout, 1)];
  }

  lemma OutsBack(k: Curve, c: Coins, n: nat, rest: seq<Byte>)
    requires Recovers(k) && Storable(c) && IsMaskSize(c.vout, n)
    ensures ReadOuts(k, Then(Outs(k, c.vout, 0), rest), Bitmap(c.vout, 0, 2 + 8 * n))
         == Some((Padded(c.vout, 0, 2 + 8 * n), rest))
    ensures Trim(Padded(c.vout, 0, 2 + 8 * n)) == c.vout
  {
    WholeBitmap(c.vout, n);
    hide Recovers, IsMaskSize, Outs, ReadOuts, Bitmap, Padded, Trim, NonNegative;
    ReadOutsBack(k, c.vout, 0, 2 + 8 * n, rest);
    TrimPadded(c, 2 + 8 * n);
  }

  lemma ParseBodyBack(k: Curve, c: Coins, n: nat, rest: seq<Byte>)
    requires Recovers(k) && Storable(c) && IsMaskSize(c.vout, n)
    ensures ParseBody(k, Then(Mask(c.vout, 0, n), Then(Outs(k, c.vout, 0), Then(VarInt.Encode(c.height), rest))),
                      c.version, c.coinBase, [Avail(c.vout, 0), Avail(c.vout, 1)], Nonzero(c.vout, 0, n))
         == Some((c, rest))
  {
    hide Then, Recovers, IsMaskSize, VarInt.Encode, VarInt.Decode, Mask, Outs, Nonzero, ReadMask, ReadOuts, Bitmap;
    hide Padded, Avail, Trim, NonNegative, Coins.Canonical, Coins.IsPruned, ParseBody;
    var s4 := Then(VarInt.Encode(c.height), rest);
    var s3 := Then(Outs(k, c.vout, 0), s4);
    MaskBack(c.vout, n, s3);
    OutsBack(k, c, n, s4);
    NumberBack(c.height, rest);
    ParseBodySteps(k, Then(Mask(c.vout, 0, n), s3), c.version, c.coinBase, [Avail(c.vout, 0), Avail(c.vout, 1)],
                   Nonzero(c.vout, 0, n), Bitmap(c.vout, 0, 2 + 8 * n), s3, Padded(c.vout, 0, 2 + 8 * n), s4, c.height,
                   rest);
  }

  lemma Regroup(a: seq<Byte>, b: seq<Byte>, c: seq<Byte>, d: seq<Byte>, e: seq<Byte>, rest: seq<Byte>)
    ensures a + (b + (c + (d + e))) + rest == Then(a, Then(b, Then(c, Then(d, Then(e, rest)))))
  {
    assert d + e + rest == d + (e + rest);
    assert c + (d + e) + rest == c + (d + e + rest);
    assert b + (c + (d + e)) + rest == b + (c + (d + e) + rest);
    assert a + (b + (c + (d + e))) + rest == a + (b + (c + (d + e)) + rest);
  }

  /** Every storable CCoins is read back exactly, whatever follows it. */
  lemma ParseBytes(k: Curve, c: Coins, n: nat, rest: seq<Byte>)
    requires Recovers(k) && Storable(c) && IsMaskSize(c.vout, n)
    ensures Parse(k, Bytes(k, c, n) + rest) == Some((c, rest))
  {
    hide Then, Flag, Recovers, IsMaskSize, VarInt.Encode, VarInt.Decode, Mask, Outs, Code, Nonzero, Avail, Parse;
    hide ParseBody, NonNegative, Coins.Canonical, Coins.IsPruned;
    SomethingUnspent(c, n);
    var code := Code(c, Nonzero(c.vout, 0, n));
    var s2 := Then(Mask(c.vout, 0, n), Then(Outs(k, c.vout, 0), Then(VarInt.Encode(c.height), rest)));
    var s1 := Then(VarInt.Encode(code), s2);
    Regroup(VarInt.Encode(c.version), VarInt.Encode(code), Mask(c.vout, 0, n), Outs(k, c.vout, 0),
            VarInt.Encode(c.height), rest);
    NumberBack(c.version, s1);
    NumberBack(code, s2);
    CodeReadBack(c, Nonzero(c.vout, 0, n));
    ParseBodyBack(k, c, n, rest);
    ParseSteps(k, Then(VarInt.Encode(c.version), s1), c.version, s1, code, s2);
  }

  // ---------- The loops ----------

  method WriteMask(os: seq<Byte>, vout: seq<TxOut>, n: nat) returns (r: seq<Byte>)
    ensures r == os + Mask(vout, 0, n)
  {
    r := os;
    hide MaskTo;
    assert Mask(vout, 0, 0) == [];
    for b := 0 to n
      invariant r == os + Mask(vout, 0, b)
    {
      var byte := MaskOf(vout, b);
      MaskSnoc(vout, 0, b);
      r := r + [byte];
    }
  }

  lemma {:induction false} MaskSnoc(vout: seq<TxOut>, lo: nat, hi: nat)
    requires lo <= hi
    ensures Mask(vout, lo, hi + 1) == Mask(vout, lo, hi) + [MaskByte(vout, hi)]
    decreases hi - lo
  {
    hide MaskByte;
    if lo < hi {
      MaskSnoc(vout, lo + 1, hi);
    } else {
      assert Mask(vout, hi + 1, hi + 1) == [];
    }
  }

  method MaskOf(vout: seq<TxOut>, b: nat) returns (byte: Byte)
    ensures byte == MaskByte(vout, b)
  {
    byte := 0;
    var i := 0;
    while i < 8 && 2 + 8 * b + i < |vout|
      invariant 0 <= i <= 8 && byte == MaskTo(vout, b, i)
    {
      if !vout[2 + 8 * b + i].IsNull() {
        byte := SetBit(byte, i);
      }
      i := i + 1;
    }
    NothingBeyond(vout, b, i, 8);
  }

  lemma {:induction false} NothingBeyond(vout: seq<TxOut>, b: nat, i: nat, n: nat)
    requires i <= n <= 8 && (i < n ==> 2 + 8 * b + i >= |vout|)
    ensures MaskTo(vout, b, n) == MaskTo(vout, b, i)
  {
    if i < n {
      NothingBeyond(vout, b, i, n - 1);
    }
  }

  /** CCoins::Serialize. */
  method Serialize(k: Curve, c: Coins) returns (bytes: seq<Byte>)
    requires Storable(c)
    ensures exists n :: IsMaskSize(c.vout, n) && bytes == Bytes(k, c, n)
  {
    var size, nonzero := CalcMaskSize(c.vout);
    ghost var n := size;
    SomethingUnspent(c, n);
    hide IsMaskSize, Mask, Outs, Nonzero, NonNegative, PutOut, VarInt.Encode, Coins.Canonical, Coins.IsPruned, Avail;
    hide Flag;
    var code := HeaderCode(c, nonzero);
    var s := VarInt.WriteVarInt([], c.version);
    assert s == VarInt.Encode(c.version);
    s := VarInt.WriteVarInt(s, code);
    s := WriteMask(s, c.vout, size);
    s := WriteOuts(k, s, c.vout);
    bytes := VarInt.WriteVarInt(s, c.height);
    Regroup5(VarInt.Encode(c.version), VarInt.Encode(code), Mask(c.vout, 0, n), Outs(k, c.vout, 0),
             VarInt.Encode(c.height));
  }

  lemma Regroup5(a: seq<Byte>, b: seq<Byte>, c: seq<Byte>, d: seq<Byte>, e: seq<Byte>)
    ensures a + b + c + d + e == a + (b + (c + (d + e)))
  {
    assert a + b + c + d + e == a + b + c + (d + e);
    assert a + b + c + (d + e) == a + b + (c + (d + e));
  }

  method HeaderCode(c: Coins, nonzero: nat) returns (code: nat)
    requires Avail(c.vout, 0) || Avail(c.vout, 1) || nonzero > 0
    ensures code == Code(c, nonzero)
  {
    var first := |c.vout| > 0 && !c.vout[0].IsNull();
    var second := |c.vout| > 1 && !c.vout[1].IsNull();
    code := 8 * (nonzero - if first || second then 0 else 1)
              + (if c.coinBase then 1 else 0) + (if first then 2 else 0) + (if second then 4 else 0);
  }

  method WriteOuts(k: Curve, os: seq<Byte>, vout: seq<TxOut>) returns (r: seq<Byte>)
    requires NonNegative(vout)
    ensures r == os + Outs(k, vout, 0)
  {
    hide PutOut;
    r := os;
    for i := 0 to |vout|
      invariant r + Outs(k, vout, i) == os + Outs(k, vout, 0)
    {
      if !vout[i].IsNull() {
        ghost var tail := Outs(k, vout, i + 1);
        assert r + (PutOut(k, vout[i]) + tail) == r + PutOut(k, vout[i]) + tail;
        r := r + PutOut(k, vout[i]);
      } else {
        assert Outs(k, vout, i) == Outs(k, vout, i + 1);
      }
    }
    assert Outs(k, vout, |vout|) == [];
  }

  /** CCoins::GetSerializeSize is the number of bytes written. */
  method GetSerializeSize(k: Curve, c: Coins) returns (size: nat)
    requires Storable(c)
    ensures exists n :: IsMaskSize(c.vout, n) && size == |Bytes(k, c, n)|
  {
    var maskSize, nonzero := CalcMaskSize(c.vout);
    ghost var n := maskSize;
    SomethingUnspent(c, n);
    hide IsMaskSize, Outs, Nonzero, PutOut, VarInt.Encode, Avail, Flag;
    MaskLength(c.vout, 0, n);
    var code := HeaderCode(c, nonzero);
    var versionSize := VarInt.GetSizeOfVarInt(c.version);
    var codeSize := VarInt.GetSizeOfVarInt(code);
    var outsSize := SizeOfOuts(k, c.vout);
    var heightSize := VarInt.GetSizeOfVarInt(c.height);
    size := versionSize + codeSize + maskSize + outsSize + heightSize;
  }

  lemma {:induction false} MaskLength(vout: seq<TxOut>, lo: nat, hi: nat)
    requires lo <= hi
    ensures |Mask(vout, lo, hi)| == hi - lo
    decreases hi - lo
  {
    if lo < hi {
      MaskLength(vout, lo + 1, hi);
    }
  }

  method SizeOfOuts(k: Curve, vout: seq<TxOut>) returns (size: nat)
    requires NonNegative(vout)
    ensures size == |Outs(k, vout, 0)|
  {
    hide ScriptCodec.Serialize, VarInt.Encode;
    size := 0;
    for i := 0 to |vout|
      invariant size + |Outs(k, vout, i)| == |Outs(k, vout, 0)|
    {
      if !vout[i].IsNull() {
        var x := Amount.CompressAmount(vout[i].value);
        var amountSize := VarInt.GetSizeOfVarInt(x);
        var scriptSize := ScriptCodec.GetSerializeSize(k, vout[i].script);
        size := size + amountSize + scriptSize;
      }
    }
  }

  /** The loop over the mask bytes. */
  method ReadMaskBytes(stream: seq<Byte>, nonzero: nat, start: seq<bool>) returns (r: Option<(seq<bool>, seq<Byte>)>)
    ensures r == ReadMask(stream, nonzero, start)
  {
    var rest, left, avail := stream, nonzero, start;
    while left > 0
      invariant ReadMask(rest, left, avail) == ReadMask(stream, nonzero, start)
      decreases |rest|
    {
      if rest == [] {
        return None;
      }
      var byte := rest[0];
      avail := avail + ByteBits(byte);
      if byte != 0 {
        left := left - 1;
      }
      rest := rest[1..];
    }
    r := Some((avail, rest));
  }

  /** vout is assigned spent outputs first, and then those that are available are read in place. */
  method ReadOutputs(k: Curve, stream: seq<Byte>, avail: seq<bool>) returns (r: Option<(seq<TxOut>, seq<Byte>)>)
    ensures r == ReadOuts(k, stream, avail)
  {
    hide GetOut;
    var vout := seq(|avail|, _ => NULL_OUT);
    var rest := stream;
    assert avail[0..] == avail;
    AfterNothing(ReadOuts(k, stream, avail));
    for i := 0 to |avail|
      invariant |vout| == |avail|
      invariant forall j :: i <= j < |vout| ==> vout[j] == NULL_OUT
      invariant ReadOuts(k, stream, avail) == After(vout[..i], ReadOuts(k, rest, avail[i..]))
    {
      ghost var done := vout[..i];
      ReadOutsNext(k, rest, avail, i, done);
      if avail[i] {
        match GetOut(k, rest) {
          case None =>
            return None;
          case Some((o, rest')) =>
            vout := vout[i := o];
            rest := rest';
        }
      }
      assert vout[..i + 1] == done + [vout[i]];
    }
    assert vout[..|avail|] == vout;
    assert vout + [] == vout;
    r := Some((vout, rest));
  }

  /** Outputs read before those of a later part. */
  function After(done: seq<TxOut>, r: Option<(seq<TxOut>, seq<Byte>)>): Option<(seq<TxOut>, seq<Byte>)> {
    match r
    case None => None
    case Some((outs, rest)) => Some((done + outs, rest))
  }

  lemma AfterNothing(r: Option<(seq<TxOut>, seq<Byte>)>)
    ensures After([], r) == r
  {
    match r
    case None =>
    case Some((outs, rest)) => assert [] + outs == outs;
  }

  lemma ReadOutsNext(k: Curve, rest: seq<Byte>, avail: seq<bool>, i: nat, done: seq<TxOut>)
    requires i < |avail|
    ensures After(done, ReadOuts(k, rest, avail[i..]))
         == if !avail[i] then After(done + [NULL_OUT], ReadOuts(k, rest, avail[i + 1..]))
            else match GetOut(k, rest)
                 case None => None
                 case Some((o, rest')) => After(done + [o], ReadOuts(k, rest', avail[i + 1..]))
  {
    hide GetOut;
    assert avail[i..][1..] == avail[i + 1..];
    forall o: TxOut, outs: seq<TxOut>
      ensures done + ([o] + outs) == done + [o] + outs
    {
    }
  }

  /** CCoins::Unserialize. */
  method Unserialize(k: Curve, stream: seq<Byte>) returns (r: Option<(Coins, seq<Byte>)>)
    ensures r == Parse(k, stream)
  {
    hide VarInt.Decode, ReadMask, ReadOuts, Trim;
    var version := VarInt.ReadVarInt(stream);
    if version.None? {
      return None;
    }
    var code := VarInt.ReadVarInt(version.value.1);
    if code.None? {
      return None;
    }
    var n := code.value.0;
    var mask := ReadMaskBytes(code.value.1, n / 8 + Flag(n / 2 % 4 == 0, 1), [n / 2 % 2 == 1, n / 4 % 2 == 1]);
    if mask.None? {
      return None;
    }
    var outs := ReadOutputs(k, mask.value.1, mask.value.0);
    if outs.None? {
      return None;
    }
    var height := VarInt.ReadVarInt(outs.value.1);
    if height.None? {
      return None;
    }
    var vout := Cleanup(outs.value.0);
    r := Some((Coins(n % 2 == 1, vout, height.value.0, version.value.0), height.value.1));
  }

  /** To the database and back; the size that was announced is the number of bytes written. */
  method StoreAndLoad(k: Curve, c: Coins) returns (size: nat, bytes: seq<Byte>, r: Coins)
    requires Recovers(k) && Storable(c)
    ensures size == |bytes| && r == c
  {
    hide Recovers, IsMaskSize, Bytes, Parse, NonNegative, Coins.Canonical, Coins.IsPruned;
    size := GetSerializeSize(k, c);
    ghost var m :| IsMaskSize(c.vout, m) && size == |Bytes(k, c, m)|;
    bytes := Serialize(k, c);
    ghost var n :| IsMaskSize(c.vout, n) && bytes == Bytes(k, c, n);
    MaskSizeUnique(c.vout, m, n);
    ParseBytes(k, c, n, []);
    assert bytes + [] == bytes;
    var loaded := Unserialize(k, bytes);
    r := loaded.value.0;
  }

  // ---------- The documented examples ----------

  /** Pay to the hash of a key. */
  function ToKeyId(hash: seq<Byte>): Script {
    [0x76, 0xa9, 20] + hash + [0x88, 0xac]
  }

  lemma PutToKeyId(k: Curve, value: nat, x: nat, hash: seq<Byte>)
    requires |hash| == 20 && Amount.Compressed(value) == x
    ensures PutOut(k, TxOut(value, ToKeyId(hash))) == VarInt.Encode(x) + ([0] + hash)
  {
    var zeros := seq(32, _ => 0);
    hide Compress, VarInt.Encode, Amount.Compressed;
    ScriptCodec.CompressMeans(k, hash, zeros, zeros, 2);
  }

  /** Only the second of two outputs is left. */
  lemma SecondOnly(k: Curve, paid: TxOut, height: nat, version: nat)
    requires paid.value >= 0
    ensures var c := Coins(false, [NULL_OUT, paid], height, version);
            && Storable(c) && IsMaskSize(c.vout, 0)
            && Bytes(k, c, 0) == VarInt.Encode(version) + VarInt.Encode(4) + PutOut(k, paid) + VarInt.Encode(height)
  {
    hide VarInt.Encode, PutOut;
    var vout := [NULL_OUT, paid];
    var c := Coins(false, vout, height, version);
    assert !vout[1].IsNull();
    assert Outs(k, vout, 2) == [] && Outs(k, vout, 1) == PutOut(k, paid);
    assert Outs(k, vout, 0) == PutOut(k, paid);
    hide Outs;
    assert Mask(vout, 0, 0) == [] && Code(c, 0) == 4;
  }

  /** 600 coins at output 1, output 0 spent, height 203998: version 1, code 4, no mask, 8358 for the amount, 00 for the
      kind of script, and 8bb85e for the height. */
  lemma FirstExample(k: Curve, hash: seq<Byte>)
    requires |hash| == 20
    ensures var c := Coins(false, [NULL_OUT, TxOut(60_000_000_000, ToKeyId(hash))], 203998, 1);
            && Storable(c) && IsMaskSize(c.vout, 0)
            && Bytes(k, c, 0) == [0x01, 0x04, 0x83, 0x58, 0x00] + hash + [0x8b, 0xb8, 0x5e]
  {
    hide Bytes, PutOut, VarInt.Encode, Amount.Compressed, Storable, IsMaskSize, VarInt.DigitSum, ToKeyId;
    SecondOnly(k, TxOut(60_000_000_000, ToKeyId(hash)), 203998, 1);
    Amount.CompressWhole(60);
    PutToKeyId(k, 60_000_000_000, 600, hash);
    VarInt.TwoDigits(0x83, 0x58);
    VarInt.ThreeDigits(0x8b, 0xb8, 0x5e);
    OneByte(1);
    OneByte(4);
  }

  lemma {:induction false} SkipSpent(k: Curve, vout: seq<TxOut>, lo: nat, hi: nat)
    requires NonNegative(vout) && lo <= hi <= |vout| && forall i :: lo <= i < hi ==> vout[i].IsNull()
    ensures Outs(k, vout, lo) == Outs(k, vout, hi)
    decreases hi
  {
    hide PutOut, NonNegative;
    if lo < hi {
      SkipSpent(k, vout, lo, hi - 1);
    }
  }

  /** A byte of the mask in which one output is left. */
  lemma {:induction false} OneBit(vout: seq<TxOut>, b: nat, i: nat, n: nat)
    requires i < 8 && n <= 8
    requires forall j :: 2 + 8 * b <= j < 10 + 8 * b ==> (Avail(vout, j) <==> j == 2 + 8 * b + i)
    ensures MaskTo(vout, b, n) == if n <= i then 0 else SetBit(0, i)
  {
    if n > 0 {
      OneBit(vout, b, i, n - 1);
      assert Avail(vout, 2 + 8 * b + n - 1) <==> n - 1 == i;
    }
  }

  /** Outputs 4 and 16 of a coinbase are left: code 9 for two mask bytes, 04 and 40. */
  lemma TwoLeft(k: Curve, vout: seq<TxOut>, height: nat, version: nat)
    requires |vout| == 17 && vout[4].value >= 0 && vout[16].value >= 0
    requires forall i :: 0 <= i < 17 && i != 4 && i != 16 ==> vout[i] == NULL_OUT
    ensures var c := Coins(true, vout, height, version);
            && Storable(c) && IsMaskSize(c.vout, 2)
            && Bytes(k, c, 2) == VarInt.Encode(version) + (VarInt.Encode(9) + ([0x04, 0x40]
                 + (PutOut(k, vout[4]) + PutOut(k, vout[16]) + VarInt.Encode(height))))
  {
    hide VarInt.Encode, PutOut;
    var c := Coins(true, vout, height, version);
    assert Storable(c) by {
      assert !vout[16].IsNull();
    }
    OneBit(vout, 0, 2, 8);
    OneBit(vout, 1, 6, 8);
    assert MaskByte(vout, 0) == 0x04 && MaskByte(vout, 1) == 0x40;
    assert Mask(vout, 0, 2) == [0x04, 0x40] && Nonzero(vout, 0, 2) == 2 by {
      assert Mask(vout, 2, 2) == [] && Mask(vout, 1, 2) == [0x40];
      assert Nonzero(vout, 2, 2) == 0 && Nonzero(vout, 1, 2) == 1;
    }
    assert Code(c, 2) == 9;
    hide Mask, Nonzero, MaskByte, Code;
    SkipSpent(k, vout, 0, 4);
    SkipSpent(k, vout, 5, 16);
    assert Outs(k, vout, 17) == [];
    assert Outs(k, vout, 16) == PutOut(k, vout[16]) && Outs(k, vout, 4) == PutOut(k, vout[4]) + PutOut(k, vout[16]);
  }

  /** The second example: 234925952 and 110397 at outputs 4 and 16 of a coinbase at height 120891. */
  lemma SecondExample(k: Curve, a: seq<Byte>, b: seq<Byte>, vout: seq<TxOut>)
    requires |a| == |b| == 20 && |vout| == 17
    requires vout[4] == TxOut(234_925_952, ToKeyId(a)) && vout[16] == TxOut(110_397, ToKeyId(b))
    requires forall i :: 0 <= i < 17 && i != 4 && i != 16 ==> vout[i] == NULL_OUT
    ensures var c := Coins(true, vout, 120891, 1);
            && Storable(c) && IsMaskSize(c.vout, 2)
            && Bytes(k, c, 2) == [0x01, 0x09, 0x04, 0x40, 0x86, 0xef, 0x97, 0xd5, 0x79, 0x00] + a
                                 + [0xbb, 0xd1, 0x23, 0x00] + b + [0x86, 0xaf, 0x3b]
  {
    hide Bytes, PutOut, VarInt.Encode, Amount.Compressed, Storable, IsMaskSize, VarInt.DigitSum, ToKeyId;
    TwoLeft(k, vout, 120891, 1);
    assert Amount.Pow10(0) == 1;
    Amount.CompressMeans(234_925_952, 23_492_595, 2, 0);
    Amount.CompressMeans(110_397, 11_039, 7, 0);
    PutToKeyId(k, 234_925_952, 2_114_333_561, a);
    PutToKeyId(k, 110_397, 993_571, b);
    FiveBytes();
    VarInt.ThreeDigits(0xbb, 0xd1, 0x23);
    VarInt.ThreeDigits(0x86, 0xaf, 0x3b);
    OneByte(1);
    OneByte(9);
  }

  lemma FiveBytes()
    ensures VarInt.Encode(2_114_333_561) == [0x86, 0xef, 0x97, 0xd5, 0x79]
  {
    var code: seq<Byte> := [0x86, 0xef, 0x97, 0xd5, 0x79];
    assert code[1..] == [0xef, 0x97, 0xd5, 0x79] && code[1..][1..] == [0x97, 0xd5, 0x79];
    VarInt.ThreeDigits(0x97, 0xd5, 0x79);
    assert VarInt.Pow128(2) == 16384;
    assert VarInt.Pow128(3) == 2_097_152;
    assert VarInt.Pow128(4) == 268_435_456;
    VarInt.CodeIsEncode(code);
  }

  lemma OneByte(n: nat)
    requires n < 128
    ensures VarInt.Encode(n) == [n]
  {
    VarInt.OneDigit(n);
    VarInt.CodeIsEncode([n]);
  }
}
