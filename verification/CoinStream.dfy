// Writing a record to a stream, measuring it, and reading it back, step by step.
module CoinStream {
  import opened Wrappers
  import opened Nonlinear
  import opened Coins
  import opened Amounts
  import opened VarInt
  import opened ScriptCodec
  import opened CoinRecord

  // ----- writing -----

  method WriteTxOut(curve: Curve, out: TxOut) returns (bytes: seq<Byte>)
    requires out.value < TWO64
    ensures bytes == WriteOut(curve, out)
  {
    var amount := CompressAmount(if out.value >= 0 then out.value else 0);
    var head := WriteVarInt(amount);
    var compressed := Compress(curve, out.script);
    if compressed.Some? {
      bytes := head + compressed.value;
    } else {
      var size := WriteVarInt(|out.script| + SPECIAL_SCRIPTS);
      bytes := head + (size + out.script);
    }
  }

  lemma {:induction false} NoMoreBits(vout: seq<TxOut>, b: nat, i: nat, n: nat)
    requires i <= n && (i < n ==> 2 + b * 8 + i >= |vout|)
    ensures MaskBits(vout, b, n) == MaskBits(vout, b, i)
  {
    if i < n {
      NoMoreBits(vout, b, i, n - 1);
    }
  }

  /** One byte of the mask. */
  method MaskOf(vout: seq<TxOut>, b: nat) returns (chAvail: Byte)
    ensures chAvail == MaskByte(vout, b)
  {
    var m: nat := 0;
    var i := 0;
    while i < 8 && 2 + b * 8 + i < |vout|
      invariant 0 <= i <= 8 && m == MaskBits(vout, b, i)
      decreases 8 - i
    {
      if !vout[2 + b * 8 + i].IsNull() {
        m := m + Pow2(i);
      }
      i := i + 1;
    }
    NoMoreBits(vout, b, i, 8);
    assert Pow2(8) == 256;
    chAvail := m;
  }

  method WriteMask(vout: seq<TxOut>, n: nat) returns (mask: seq<Byte>)
    ensures mask == MaskBytes(vout, 0, n)
  {
    hide MaskByte;
    mask := [];
    for b := 0 to n
      invariant mask + MaskBytes(vout, b, n) == MaskBytes(vout, 0, n)
    {
      var chAvail := MaskOf(vout, b);
      assert mask + ([chAvail] + MaskBytes(vout, b + 1, n)) == mask + [chAvail] + MaskBytes(vout, b + 1, n);
      mask := mask + [chAvail];
    }
    assert mask + [] == mask;
  }

  method WriteAllOuts(curve: Curve, vout: seq<TxOut>) returns (outs: seq<Byte>)
    requires forall i :: 0 <= i < |vout| ==> vout[i].value < TWO64
    ensures outs == WriteOuts(curve, vout)
  {
    hide WriteOut;
    outs := [];
    assert vout[0..] == vout;
    for i := 0 to |vout|
      invariant outs + WriteOuts(curve, vout[i..]) == WriteOuts(curve, vout)
    {
      assert vout[i..][0] == vout[i] && vout[i..][1..] == vout[i + 1..];
      ghost var tail := WriteOuts(curve, vout[i + 1..]);
      if !vout[i].IsNull() {
        var bytes := WriteTxOut(curve, vout[i]);
        assert outs + (bytes + tail) == outs + bytes + tail;
        outs := outs + bytes;
      } else {
        assert [] + tail == tail;
      }
    }
    assert outs + [] == outs;
  }

  method Serialize(curve: Curve, c: Coins) returns (out: seq<Byte>)
    requires !c.IsPruned() && forall i :: 0 <= i < |c.vout| ==> c.vout[i].value < TWO64
    ensures HasFirst(c.vout) || MaskCode(c.vout) > 0
    ensures out == Serialized(curve, c)
  {
    UnspentIsWritable(c);
    hide MaskByte, MaskBits, WriteOut, Written, MaskSize, MaskCode, Trim;
    var nMaskSize, nMaskCode := CalcMaskSize(c.vout);
    var fFirst := |c.vout| > 0 && !c.vout[0].IsNull();
    var fSecond := |c.vout| > 1 && !c.vout[1].IsNull();
    assert fFirst || fSecond || nMaskCode > 0;
    var nCode := 8 * (nMaskCode - (if fFirst || fSecond then 0 else 1)) + (if c.coinbase then 1 else 0)
      + (if fFirst then 2 else 0) + if fSecond then 4 else 0;
    assert nCode == Code(c);
    var version := WriteVarInt(c.version);
    var code := WriteVarInt(nCode);
    var mask := WriteMask(c.vout, nMaskSize);
    var outs := WriteAllOuts(curve, c.vout);
    var height := WriteVarInt(c.height);
    out := version + code + mask + outs + height;
  }

  // ----- measuring -----

  method SizeOfTxOut(curve: Curve, out: TxOut) returns (size: nat)
    requires out.value < TWO64
    ensures size == |WriteOut(curve, out)|
  {
    var amount := CompressAmount(if out.value >= 0 then out.value else 0);
    size := GetSizeOfVarInt(amount);
    var compressed := Compress(curve, out.script);
    if compressed.Some? {
      size := size + |compressed.value|;
    } else {
      var n := GetSizeOfVarInt(|out.script| + SPECIAL_SCRIPTS);
      size := size + (|out.script| + n);
    }
  }

  lemma {:induction false} MaskLength(vout: seq<TxOut>, b: nat, n: nat)
    requires b <= n
    ensures |MaskBytes(vout, b, n)| == n - b
    decreases n - b
  {
    hide MaskByte;
    if b < n {
      MaskLength(vout, b + 1, n);
    }
  }

  method SizeOfAllOuts(curve: Curve, vout: seq<TxOut>) returns (size: nat)
    requires forall i :: 0 <= i < |vout| ==> vout[i].value < TWO64
    ensures size == |WriteOuts(curve, vout)|
  {
    hide WriteOut;
    size := 0;
    assert vout[0..] == vout;
    for i := 0 to |vout|
      invariant size + |WriteOuts(curve, vout[i..])| == |WriteOuts(curve, vout)|
    {
      assert vout[i..][0] == vout[i] && vout[i..][1..] == vout[i + 1..];
      if !vout[i].IsNull() {
        var n := SizeOfTxOut(curve, vout[i]);
        size := size + n;
      }
    }
  }

  /** The size worked out beforehand is the size that is written. */
  method GetSerializeSize(curve: Curve, c: Coins) returns (size: nat)
    requires !c.IsPruned() && forall i :: 0 <= i < |c.vout| ==> c.vout[i].value < TWO64
    ensures HasFirst(c.vout) || MaskCode(c.vout) > 0
    ensures size == |Serialized(curve, c)|
  {
    UnspentIsWritable(c);
    hide MaskByte, MaskBits, WriteOut, Written, MaskSize, MaskCode, Trim;
    var nMaskSize, nMaskCode := CalcMaskSize(c.vout);
    MaskLength(c.vout, 0, nMaskSize);
    var fFirst := |c.vout| > 0 && !c.vout[0].IsNull();
    var fSecond := |c.vout| > 1 && !c.vout[1].IsNull();
    assert fFirst || fSecond || nMaskCode > 0;
    var nCode := 8 * (nMaskCode - (if fFirst || fSecond then 0 else 1)) + (if c.coinbase then 1 else 0)
      + (if fFirst then 2 else 0) + if fSecond then 4 else 0;
    assert nCode == Code(c);
    size := GetSizeOfVarInt(c.version);
    var codeSize := GetSizeOfVarInt(nCode);
    size := size + codeSize + nMaskSize;
    var outsSize := SizeOfAllOuts(curve, c.vout);
    var heightSize := GetSizeOfVarInt(c.height);
    size := size + outsSize + heightSize;
  }

  // ----- reading -----

  method ReadTxOut(curve: Curve, s: seq<Byte>) returns (r: Option<Read<TxOut>>)
    ensures r == ReadOut(curve, s)
  {
    var amount := ReadVarInt(s);
    if amount.None? {
      return None;
    }
    var value := DecompressAmount(amount.value.value % TWO64);
    var script := ReadScript(curve, amount.value.rest);
    if script.None? {
      return None;
    }
    return Some(Read(TxOut(value, script.value.value), script.value.rest));
  }

  /** Reads mask bytes until enough of them were not zero. */
  method ReadMaskBytes(s: seq<Byte>, code: nat, first: seq<bool>) returns (r: Option<Read<seq<bool>>>)
    ensures r == ReadMask(s, code, first)
  {
    hide TestBit;
    var left, avail, i := code, first, 0;
    assert s[0..] == s;
    while left > 0
      invariant 0 <= i <= |s| && left >= 0 && ReadMask(s[i..], left, avail) == ReadMask(s, code, first)
      decreases |s| - i
    {
      if i == |s| {
        return None;
      }
      var chAvail := s[i];
      assert s[i..][0] == chAvail && s[i..][1..] == s[i + 1..];
      ghost var before := avail;
      for p := 0 to 8
        invariant avail == before + Bits(chAvail, p)
      {
        avail := avail + [TestBit(chAvail, p)];
      }
      if chAvail != 0 {
        left := left - 1;
      }
      i := i + 1;
    }
    return Some(Read(avail, s[i..]));
  }

  function Joined(outs: seq<TxOut>, r: Option<Read<seq<TxOut>>>): Option<Read<seq<TxOut>>>
  {
    match r
    case None => None
    case Some(q) => Some(Read(outs + q.value, q.rest))
  }

  lemma JoinNothing(r: Option<Read<seq<TxOut>>>)
    ensures Joined([], r) == r
  {
    if r.Some? {
      assert [] + r.value.value == r.value.value;
    }
  }

  lemma JoinMore(outs: seq<TxOut>, out: TxOut, r: Option<Read<seq<TxOut>>>)
    ensures Joined(outs, Before(out, r)) == Joined(outs + [out], r)
  {
    if r.Some? {
      assert outs + ([out] + r.value.value) == outs + [out] + r.value.value;
    }
  }

  /** Fills in the outputs that are marked; the others stay spent. */
  method ReadAllOuts(curve: Curve, s: seq<Byte>, avail: seq<bool>) returns (r: Option<Read<seq<TxOut>>>)
    ensures r == ReadOuts(curve, s, avail)
  {
    hide ReadOut;
    var vout: seq<TxOut> := seq(|avail|, i => NULL_OUT);
    var rest := s;
    assert avail[0..] == avail;
    JoinNothing(ReadOuts(curve, s, avail));
    assert vout[..0] == [];
    for i := 0 to |avail|
      invariant |vout| == |avail| && forall j :: i <= j < |vout| ==> vout[j] == NULL_OUT
      invariant ReadOuts(curve, s, avail) == Joined(vout[..i], ReadOuts(curve, rest, avail[i..]))
    {
      assert avail[i..][0] == avail[i] && avail[i..][1..] == avail[i + 1..];
      ghost var before := vout[..i];
      if avail[i] {
        var out := ReadTxOut(curve, rest);
        if out.None? {
          return None;
        }
        rest := out.value.rest;
        vout := vout[i := out.value.value];
      }
      JoinMore(before, vout[i], ReadOuts(curve, rest, avail[i + 1..]));
      assert vout[..i + 1] == before + [vout[i]];
    }
    assert vout[..|avail|] == vout && vout + [] == vout;
    return Some(Read(vout, rest));
  }

  method Unserialize(curve: Curve, s: seq<Byte>) returns (r: Option<Read<Coins>>)
    ensures r == Unserialized(curve, s)
  {
    hide ReadFrom, ReadMask, ReadOuts, Trim;
    var version := ReadVarInt(s);
    if version.None? {
      return None;
    }
    var code := ReadVarInt(version.value.rest);
    if code.None? {
      return None;
    }
    var nCode := code.value.value;
    var avail := ReadMaskBytes(code.value.rest, CodeMask(nCode), CodeAvail(nCode));
    if avail.None? {
      return None;
    }
    var vout := ReadAllOuts(curve, avail.value.rest, avail.value.value);
    if vout.None? {
      return None;
    }
    var height := ReadVarInt(vout.value.rest);
    if height.None? {
      return None;
    }
    var c := Cleanup(EMPTY_COINS.(coinbase := nCode % 2 == 1, vout := vout.value.value, height := height.value.value, version := version.value.value));
    return Some(Read(c, height.value.rest));
  }
}
