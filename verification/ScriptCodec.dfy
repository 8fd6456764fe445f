// Scripts and outputs in their compressed form.  Payments to keys and to
// scripts shrink to a tag and a hash; everything else is written in full.
module ScriptCodec {
  import opened Wrappers
  import opened Coins
  import opened Amounts
  import opened VarInt

  const SPECIAL_SCRIPTS := 6

  const OP_DUP: Byte := 0x76

  const OP_EQUAL: Byte := 0x87

  const OP_EQUALVERIFY: Byte := 0x88

  const OP_HASH160: Byte := 0xa9

  const OP_CHECKSIG: Byte := 0xac

  /** The curve arithmetic: which 65-byte keys are on the curve, and what a 33-byte key expands to. */
  datatype Curve = Curve(fullyValid: seq<Byte> -> bool, expand: seq<Byte> -> Option<seq<Byte>>)

  function Shrunk(key: seq<Byte>): seq<Byte>
    requires |key| == 65
  {
    [2 + key[64] % 2] + key[1..33]
  }

  /** Keys on the curve are found again from their x coordinate and the parity of y. */
  ghost predicate Lawful(c: Curve)
  {
    && (forall k: seq<Byte> :: |k| == 65 && k[0] == 4 && c.fullyValid(k) ==> c.expand(Shrunk(k)) == Some(k))
    && (forall k: seq<Byte> :: c.expand(k).Some? ==> |c.expand(k).value| == 65)
  }

  // ----- the special forms -----

  predicate IsToKeyId(s: seq<Byte>)
  {
    |s| == 25 && s[0] == OP_DUP && s[1] == OP_HASH160 && s[2] == 20 && s[23] == OP_EQUALVERIFY && s[24] == OP_CHECKSIG
  }

  predicate IsToScriptId(s: seq<Byte>)
  {
    |s| == 23 && s[0] == OP_HASH160 && s[1] == 20 && s[22] == OP_EQUAL
  }

  /** The key of a payment to a key. */
  function PubKeyOf(c: Curve, s: seq<Byte>): Option<seq<Byte>>
  {
    if |s| == 35 && s[0] == 33 && s[34] == OP_CHECKSIG && (s[1] == 2 || s[1] == 3) then Some(s[1..34])
    else if |s| == 67 && s[0] == 65 && s[66] == OP_CHECKSIG && s[1] == 4 && c.fullyValid(s[1..66]) then Some(s[1..66])
    else None
  }

  function Compress(c: Curve, s: seq<Byte>): Option<seq<Byte>>
  {
    if IsToKeyId(s) then Some([0] + s[3..23])
    else if IsToScriptId(s) then Some([1] + s[2..22])
    else
      match PubKeyOf(c, s)
      case None => None
      case Some(key) =>
        if key[0] == 2 || key[0] == 3 then Some([key[0]] + key[1..33])
        else Some([4 + key[64] % 2] + key[1..33])
  }

  function SpecialSize(n: nat): nat
  {
    if n == 0 || n == 1 then 20 else if 2 <= n <= 5 then 32 else 0
  }

  /** A script from its tag and what follows; a key that does not expand leaves an empty script. */
  function Decompress(c: Curve, n: nat, bytes: seq<Byte>): seq<Byte>
    requires n < SPECIAL_SCRIPTS && |bytes| == SpecialSize(n)
  {
    if n == 0 then [OP_DUP, OP_HASH160, 20] + bytes + [OP_EQUALVERIFY, OP_CHECKSIG]
    else if n == 1 then [OP_HASH160, 20] + bytes + [OP_EQUAL]
    else if n <= 3 then [33, n] + bytes + [OP_CHECKSIG]
    else
      match c.expand([n - 2] + bytes)
      case None => []
      case Some(key) => [65] + key + [OP_CHECKSIG]
  }

  // ----- scripts in a stream -----

  function WriteScript(c: Curve, s: seq<Byte>): seq<Byte>
  {
    match Compress(c, s)
    case Some(bytes) => bytes
    case None => Written(|s| + SPECIAL_SCRIPTS) + s
  }

  function ReadScript(c: Curve, s: seq<Byte>): Option<Read<seq<Byte>>>
  {
    match ReadFrom(s, 0)
    case None => None
    case Some(r) =>
      if r.value < SPECIAL_SCRIPTS then
        var size := SpecialSize(r.value);
        if |r.rest| < size then None
        else Some(Read(Decompress(c, r.value, r.rest[..size]), r.rest[size..]))
      else if |r.rest| < r.value - SPECIAL_SCRIPTS then None
      else Some(Read(r.rest[..r.value - SPECIAL_SCRIPTS], r.rest[r.value - SPECIAL_SCRIPTS..]))
  }

  // A payment to a key is the key between its length and one operation.
  lemma KeyInScript(s: seq<Byte>, key: seq<Byte>)
    requires |s| >= 35 && |key| == |s| - 2 && s[0] == |key| && key == s[1..|s| - 1] && s[|s| - 1] == OP_CHECKSIG
    ensures s == [s[0]] + key + [OP_CHECKSIG]
    ensures |key| == 33 ==> s == [33, key[0]] + key[1..33] + [OP_CHECKSIG]
  {
    assert s == s[..1] + s[1..|s| - 1] + s[|s| - 1..];
    if |key| == 33 {
      assert key == [key[0]] + key[1..33];
    }
  }

  // A compressed script starts with a tag, and decompressing gives the script back.
  lemma DecompressCompress(c: Curve, s: seq<Byte>)
    requires Lawful(c) && Compress(c, s).Some?
    ensures var bytes := Compress(c, s).value;
            && |bytes| > 0 && bytes[0] < SPECIAL_SCRIPTS && |bytes| == 1 + SpecialSize(bytes[0])
            && Decompress(c, bytes[0], bytes[1..]) == s
  {
    var bytes := Compress(c, s).value;
    if IsToKeyId(s) {
      assert bytes[1..] == s[3..23];
      assert s == [OP_DUP, OP_HASH160, 20] + s[3..23] + [OP_EQUALVERIFY, OP_CHECKSIG];
    } else if IsToScriptId(s) {
      assert bytes[1..] == s[2..22];
      assert s == [OP_HASH160, 20] + s[2..22] + [OP_EQUAL];
    } else {
      var key := PubKeyOf(c, s).value;
      KeyInScript(s, key);
      assert bytes[1..] == key[1..33];
      if |s| == 67 {
        hide IsToKeyId, IsToScriptId;
        assert [bytes[0] - 2] + bytes[1..] == Shrunk(key);
        assert c.expand(Shrunk(key)) == Some(key);
      }
    }
  }

  lemma ReadTag(tag: Byte, s: seq<Byte>)
    requires tag < 0x80
    ensures ReadFrom([tag] + s, 0) == Some(Read(tag, s))
  {
    assert ([tag] + s)[1..] == s;
  }

  // Every script is read back.
  lemma ReadWriteScript(c: Curve, s: seq<Byte>, rest: seq<Byte>)
    requires Lawful(c)
    ensures ReadScript(c, WriteScript(c, s) + rest) == Some(Read(s, rest))
  {
    match Compress(c, s)
    case Some(bytes) =>
      DecompressCompress(c, s);
      assert bytes == [bytes[0]] + bytes[1..];
      assert bytes + rest == [bytes[0]] + (bytes[1..] + rest);
      ReadTag(bytes[0], bytes[1..] + rest);
      assert (bytes[1..] + rest)[..|bytes| - 1] == bytes[1..];
      assert (bytes[1..] + rest)[|bytes| - 1..] == rest;
    case None =>
      ReadWritten(|s| + SPECIAL_SCRIPTS, s + rest);
      assert Written(|s| + SPECIAL_SCRIPTS) + s + rest == Written(|s| + SPECIAL_SCRIPTS) + (s + rest);
      assert (s + rest)[..|s|] == s && (s + rest)[|s|..] == rest;
  }

  // ----- outputs in a stream -----

  function WriteOut(c: Curve, out: TxOut): seq<Byte>
  {
    Written(Compressed(if out.value >= 0 then out.value else 0) % TWO64) + WriteScript(c, out.script)
  }

  function ReadOut(c: Curve, s: seq<Byte>): Option<Read<TxOut>>
  {
    match ReadFrom(s, 0)
    case None => None
    case Some(r) =>
      match ReadScript(c, r.rest)
      case None => None
      case Some(q) => Some(Read(TxOut(Decompressed(r.value % TWO64) % TWO64, q.value), q.rest))
  }

  // An output with an amount in the range of money is read back.
  lemma ReadWriteOut(c: Curve, out: TxOut, rest: seq<Byte>)
    requires Lawful(c) && MoneyRange(out.value)
    ensures ReadOut(c, WriteOut(c, out) + rest) == Some(Read(out, rest))
  {
    hide Written, ReadFrom, Compressed, Decompressed, ReadScript, WriteScript;
    AmountFits(out.value);
    var v := Compressed(out.value);
    ReadWritten(v, WriteScript(c, out.script) + rest);
    ReadWriteScript(c, out.script, rest);
    assert WriteOut(c, out) + rest == Written(v) + (WriteScript(c, out.script) + rest);
  }
}
