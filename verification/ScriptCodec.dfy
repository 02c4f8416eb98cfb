/** CScriptCompressor and CTxOutCompressor: the compact form of an output. */
module ScriptCodec {
  import opened Primitives
  import opened Coins
  import Amount
  import VarInt

  const OP_DUP: Byte := 0x76
  const OP_EQUAL: Byte := 0x87
  const OP_EQUALVERIFY: Byte := 0x88
  const OP_HASH160: Byte := 0xa9
  const OP_CHECKSIG: Byte := 0xac
  const SPECIAL_SCRIPTS: nat := 6

  /** Public keys: which 65-byte ones are valid, and the 65-byte form of a 33-byte one if there is such a point. */
  datatype Curve = Curve(valid: seq<Byte> -> bool, expand: seq<Byte> -> Option<seq<Byte>>)

  /** The 33-byte form: one coordinate and the parity of the other. */
  function Half(key: seq<Byte>): seq<Byte>
    requires |key| == 65
  {
    [2 + key[64] % 2] + key[1..33]
  }

  /** A valid key is recovered from its 33-byte form. */
  ghost predicate Recovers(c: Curve) {
    forall key :: |key| == 65 && key[0] == 4 && c.valid(key) ==> c.expand(Half(key)) == Some(key)
  }

  // ---------- Special scripts ----------

  predicate IsToKeyId(s: Script) {
    |s| == 25 && s[0] == OP_DUP && s[1] == OP_HASH160 && s[2] == 20 && s[23] == OP_EQUALVERIFY && s[24] == OP_CHECKSIG
  }

  predicate IsToScriptId(s: Script) {
    |s| == 23 && s[0] == OP_HASH160 && s[1] == 20 && s[22] == OP_EQUAL
  }

  predicate IsToShortKey(s: Script) {
    |s| == 35 && s[0] == 33 && s[34] == OP_CHECKSIG && (s[1] == 2 || s[1] == 3)
  }

  predicate IsToLongKey(c: Curve, s: Script) {
    |s| == 67 && s[0] == 65 && s[66] == OP_CHECKSIG && s[1] == 4 && c.valid(s[1..66])
  }

  function Compress(c: Curve, s: Script): Option<seq<Byte>> {
    if IsToKeyId(s) then Some([0] + s[3..23])
    else if IsToScriptId(s) then Some([1] + s[2..22])
    else if IsToShortKey(s) then Some([s[1]] + s[2..34])
    else if IsToLongKey(c, s) then Some([4 + s[65] % 2] + s[2..34])
    else None
  }

  function SpecialSize(n: nat): nat {
    if n <= 1 then 20 else if n <= 5 then 32 else 0
  }

  /** The script for a special code; a key that is not on the curve leaves the script as it was. */
  function Decompress(c: Curve, n: nat, data: seq<Byte>, was: Script): Script
    requires n < SPECIAL_SCRIPTS && |data| == SpecialSize(n)
  {
    if n == 0 then [OP_DUP, OP_HASH160, 20] + data + [OP_EQUALVERIFY, OP_CHECKSIG]
    else if n == 1 then [OP_HASH160, 20] + data + [OP_EQUAL]
    else if n <= 3 then [33, n] + data + [OP_CHECKSIG]
    else match c.expand([n - 2] + data)
      case None => was
      case Some(key) => [65] + key + [OP_CHECKSIG]
  }

  /** The special scripts and their forms: to the hash of a key, to the hash of a script, to a compressed key, and to a
      valid full key, of which one coordinate and the parity of the other are kept. */
  lemma CompressMeans(c: Curve, hash: seq<Byte>, x: seq<Byte>, y: seq<Byte>, p: Byte)
    requires |hash| == 20 && |x| == |y| == 32 && (p == 2 || p == 3)
    ensures Compress(c, [0x76, 0xa9, 20] + hash + [0x88, 0xac]) == Some([0] + hash)
    ensures Compress(c, [0xa9, 20] + hash + [0x87]) == Some([1] + hash)
    ensures Compress(c, [33, p] + x + [0xac]) == Some([p] + x)
    ensures c.valid([4] + x + y) ==> Compress(c, [65, 4] + x + y + [0xac]) == Some([4 + y[31] % 2] + x)
  {
    var keyId, scriptId := [0x76, 0xa9, 20] + hash + [0x88, 0xac], [0xa9, 20] + hash + [0x87];
    assert keyId[3..23] == hash && scriptId[2..22] == hash;
    var short, long := [33, p] + x + [0xac], [65, 4] + x + y + [0xac];
    assert short[2..34] == x && long[2..34] == x && long[1..66] == [4] + x + y;
    assert long[65] == y[31];
  }

  /** A compressed script begins with a special code, followed by as many bytes as that code calls for, and
      decompresses to the script it came from. */
  lemma DecompressCompress(c: Curve, s: Script, was: Script)
    requires Recovers(c) && Compress(c, s).Some?
    ensures var data := Compress(c, s).value;
            && |data| > 0 && data[0] < SPECIAL_SCRIPTS && |data[1..]| == SpecialSize(data[0])
            && Decompress(c, data[0], data[1..], was) == s
  {
    var data := Compress(c, s).value;
    if IsToKeyId(s) {
      assert data[1..] == s[3..23];
      assert s == [OP_DUP, OP_HASH160, 20] + s[3..23] + [OP_EQUALVERIFY, OP_CHECKSIG];
    } else if IsToScriptId(s) {
      assert data[1..] == s[2..22];
      assert s == [OP_HASH160, 20] + s[2..22] + [OP_EQUAL];
    } else if IsToShortKey(s) {
      assert data[1..] == s[2..34];
      assert s == [33, s[1]] + s[2..34] + [OP_CHECKSIG];
    } else {
      var key := s[1..66];
      assert data[1..] == s[2..34] == key[1..33];
      assert Half(key) == [data[0] - 2] + data[1..];
      assert s == [65] + key + [OP_CHECKSIG];
    }
  }

  // ---------- Scripts in a stream ----------

  function Serialize(c: Curve, s: Script): seq<Byte> {
    match Compress(c, s)
    case Some(data) => data
    case None => VarInt.Encode(|s| + SPECIAL_SCRIPTS) + s
  }

  function Unserialize(c: Curve, stream: seq<Byte>, was: Script): Option<(Script, seq<Byte>)> {
    match VarInt.Decode(stream)
    case None => None
    case Some((n, rest)) =>
      if n < SPECIAL_SCRIPTS then
        if |rest| < SpecialSize(n) then None
        else Some((Decompress(c, n, rest[..SpecialSize(n)], was), rest[SpecialSize(n)..]))
      else
        if |rest| < n - SPECIAL_SCRIPTS then None
        else Some((rest[..n - SPECIAL_SCRIPTS], rest[n - SPECIAL_SCRIPTS..]))
  }

  lemma UnserializeSerialize(c: Curve, s: Script, rest: seq<Byte>, was: Script)
    requires Recovers(c)
    ensures Unserialize(c, Serialize(c, s) + rest, was) == Some((s, rest))
  {
    match Compress(c, s) {
      case Some(data) =>
        DecompressCompress(c, s, was);
        hide Compress, Decompress, Recovers;
        SpecialBack(c, data, rest, was);
      case None =>
        hide Compress, Decompress, Recovers;
        PlainBack(c, s, rest, was);
    }
  }

  lemma SpecialBack(c: Curve, data: seq<Byte>, rest: seq<Byte>, was: Script)
    requires |data| > 0 && data[0] < SPECIAL_SCRIPTS && |data[1..]| == SpecialSize(data[0])
    ensures Unserialize(c, data + rest, was) == Some((Decompress(c, data[0], data[1..], was), rest))
  {
    hide Decompress;
    var n, tail := data[0], data[1..] + rest;
    assert VarInt.Groups(0) == [] && VarInt.Encode(n) == [n];
    assert data + rest == VarInt.Encode(n) + tail;
    hide VarInt.Encode, VarInt.Decode;
    VarInt.DecodeEncode(n, tail);
    assert tail[..SpecialSize(n)] == data[1..] && tail[SpecialSize(n)..] == rest;
  }

  lemma PlainBack(c: Curve, s: Script, rest: seq<Byte>, was: Script)
    ensures Unserialize(c, VarInt.Encode(|s| + SPECIAL_SCRIPTS) + s + rest, was) == Some((s, rest))
  {
    hide VarInt.Encode, VarInt.Decode, Decompress;
    var n := |s| + SPECIAL_SCRIPTS;
    assert VarInt.Encode(n) + s + rest == VarInt.Encode(n) + (s + rest);
    VarInt.DecodeEncode(n, s + rest);
    assert (s + rest)[..|s|] == s && (s + rest)[|s|..] == rest;
  }

  method GetSerializeSize(c: Curve, s: Script) returns (size: nat)
    ensures size == |Serialize(c, s)|
  {
    match Compress(c, s) {
      case Some(data) =>
        return |data|;
      case None =>
        var header := VarInt.GetSizeOfVarInt(|s| + SPECIAL_SCRIPTS);
        return |s| + header;
    }
  }

  /** The sizes that the class comment promises. */
  lemma SerializedSizes(c: Curve, s: Script)
    ensures IsToKeyId(s) || IsToScriptId(s) ==> |Serialize(c, s)| == 21
    ensures IsToShortKey(s) || IsToLongKey(c, s) ==> |Serialize(c, s)| == 33
    ensures Compress(c, s).None? && |s| <= 121 ==> |Serialize(c, s)| == 1 + |s|
    ensures Compress(c, s).None? && 121 < |s| <= 16505 ==> |Serialize(c, s)| == 2 + |s|
  {
    var n := |s| + SPECIAL_SCRIPTS;
    assert VarInt.Groups(0) == [];
    if 121 < |s| <= 16505 {
      assert 1 <= n / 128 <= 128 && (n / 128 - 1) / 128 == 0;
      assert |VarInt.Groups(n / 128)| == 1;
    }
  }

  // ---------- Outputs ----------

  function PutOut(c: Curve, o: TxOut): seq<Byte>
    requires o.value >= 0
  {
    VarInt.Encode(Amount.Compressed(o.value)) + Serialize(c, o.script)
  }

  function GetOut(c: Curve, stream: seq<Byte>): Option<(TxOut, seq<Byte>)> {
    match VarInt.Decode(stream)
    case None => None
    case Some((x, rest)) =>
      match Unserialize(c, rest, [])
      case None => None
      case Some((script, rest')) => Some((TxOut(Amount.Decompressed(x), script), rest'))
  }

  lemma GetPutOut(c: Curve, o: TxOut, rest: seq<Byte>)
    requires Recovers(c) && o.value >= 0
    ensures GetOut(c, PutOut(c, o) + rest) == Some((o, rest))
  {
    var x, tail := Amount.Compressed(o.value), Serialize(c, o.script) + rest;
    assert PutOut(c, o) + rest == VarInt.Encode(x) + tail;
    hide Unserialize, Serialize, VarInt.Encode, VarInt.Decode;
    VarInt.DecodeEncode(x, tail);
    Amount.DecompressCompress(o.value);
    UnserializeSerialize(c, o.script, rest, []);
  }
}
