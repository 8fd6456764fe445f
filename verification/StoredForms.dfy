// The documented forms: compressed amounts in closed form, sizes of scripts, and
// the examples of stored records.
module StoredForms {
  import opened Wrappers
  import opened Basics
  import opened Nonlinear
  import opened Coins
  import opened Amounts
  import opened VarInt
  import opened VarIntForms
  import opened ScriptCodec
  import opened CoinRecord
  import opened Ledger
  import opened UndoRecord

  // ----- amounts -----

  function TenTo(e: nat): nat
  {
    if e == 0 then 1 else 10 * TenTo(e - 1)
  }

  lemma StrippedStep(n: nat, k: nat)
    requires n > 0 && k < 9
    ensures Stripped(10 * n, k) == Stripped(n, k + 1)
  {
    assert 10 * n % 10 == 0 && 10 * n / 10 == n;
  }

  lemma {:induction false} TenToPositive(e: nat)
    ensures TenTo(e) >= 1
  {
    if e > 0 {
      TenToPositive(e - 1);
    }
  }

  lemma TenMore(m: nat, j: nat)
    requires m > 0
    ensures m * TenTo(0) == m && m * TenTo(j + 1) == 10 * (m * TenTo(j)) && m * TenTo(j) > 0
  {
    TenToPositive(j);
    MulAssoc(m, 10, TenTo(j));
    MulMonotonic(m, 1, TenTo(j));
  }

  lemma NothingToStrip(m: nat, e: nat)
    requires m > 0 && e <= 9 && (m % 10 != 0 || e == 9)
    ensures Stripped(m, e) == Scaled(m, e)
  {
  }

  lemma {:induction false} StrippedForm(m: nat, e: nat, k: nat)
    requires m > 0 && k <= e <= 9 && (m % 10 != 0 || e == 9)
    ensures m * TenTo(e - k) > 0 && Stripped(m * TenTo(e - k), k) == Scaled(m, e)
    decreases e - k
  {
    hide *;
    if k < e {
      StrippedForm(m, e, k + 1);
      TenMore(m, e - k - 1);
      StrippedStep(m * TenTo(e - k - 1), k);
    } else {
      TenMore(m, 0);
      NothingToStrip(m, e);
    }
  }

  // An amount with `e` decimal zeros, up to nine, is its other digits with the last
  // one set apart, and the number of zeros.
  lemma CompressedForm(m: nat, e: nat)
    requires m > 0 && e <= 9 && (m % 10 != 0 || e == 9)
    ensures Compressed(m * TenTo(e)) == if e < 9 then 10 * (9 * (m / 10) + m % 10 - 1) + e + 1 else 10 * m
    ensures Compressed(0) == 0
  {
    StrippedForm(m, e, 0);
    hide Stripped, TenTo;
  }

  lemma TenToValues()
    ensures TenTo(0) == 1 && TenTo(6) == 1_000_000 && TenTo(8) == 100_000_000 && TenTo(9) == 1_000_000_000
  {
    assert TenTo(3) == 1000;
    assert TenTo(6) == 1000 * TenTo(3);
  }

  lemma FormOf(m: nat, e: nat, ten: nat, n: nat)
    requires m > 0 && e <= 9 && (m % 10 != 0 || e == 9) && TenTo(e) == ten && n == m * ten
    ensures Compressed(n) == if e < 9 then 10 * (9 * (m / 10) + m % 10 - 1) + e + 1 else 10 * m
  {
    CompressedForm(m, e);
    hide Compressed, TenTo;
  }

  // One, a hundredth of a coin, one coin, fifty coins, and all coins.
  lemma CompressedExamples()
    ensures Compressed(1) == 1 && Compressed(1_000_000) == 7 && Compressed(100_000_000) == 9
    ensures Compressed(5_000_000_000) == 0x32 && Compressed(2_100_000_000_000_000) == 0x1406f40
  {
    hide *;
    TenToValues();
    FormOf(1, 0, 1, 1);
    FormOf(1, 6, 1_000_000, 1_000_000);
    FormOf(1, 8, 100_000_000, 100_000_000);
    FormOf(5, 9, 1_000_000_000, 5_000_000_000);
    FormOf(2_100_000, 9, 1_000_000_000, 2_100_000_000_000_000);
  }

  // ----- scripts -----

  // A payment to a key hash takes 21 bytes, as does one to a script hash, a payment to a
  // key 33; other scripts take one byte more than they have up to 121 bytes, and
  // two more up to 16505.
  lemma ScriptSizes(c: Curve, s: seq<Byte>)
    ensures Compress(c, s).Some? ==> |WriteScript(c, s)| == if IsToKeyId(s) || IsToScriptId(s) then 21 else 33
    ensures Compress(c, s).None? && |s| <= 121 ==> |WriteScript(c, s)| == 1 + |s|
    ensures Compress(c, s).None? && 121 < |s| <= 16_505 ==> |WriteScript(c, s)| == 2 + |s|
  {
    SizeOfWritten(|s| + 6);
    hide Written;
  }

  lemma KeyHashForm(c: Curve, body: seq<Byte>)
    requires |body| == 20
    ensures WriteScript(c, [0x76, 0xa9, 20] + body + [0x88, 0xac]) == [0] + body
  {
    var s := [0x76, 0xa9, 20] + body + [0x88, 0xac];
    assert s[3..23] == body;
    assert IsToKeyId(s);
  }

  lemma ScriptHashForm(c: Curve, body: seq<Byte>)
    requires |body| == 20
    ensures WriteScript(c, [0xa9, 20] + body + [0x87]) == [1] + body
  {
    var s := [0xa9, 20] + body + [0x87];
    assert s[2..22] == body;
    assert IsToScriptId(s) && !IsToKeyId(s);
  }

  lemma ShortKeyForm(c: Curve, key: seq<Byte>)
    requires |key| == 33 && (key[0] == 2 || key[0] == 3)
    ensures WriteScript(c, [33] + key + [0xac]) == key
  {
    var s := [33] + key + [0xac];
    assert s[1..34] == key && s[1] == key[0] && s[34] == 0xac;
    assert PubKeyOf(c, s) == Some(key);
    assert key == [key[0]] + key[1..33];
  }

  lemma LongKeyForm(c: Curve, key: seq<Byte>)
    requires |key| == 65 && key[0] == 4 && c.fullyValid(key)
    ensures WriteScript(c, [65] + key + [0xac]) == [4 + key[64] % 2] + key[1..33]
  {
    var s := [65] + key + [0xac];
    assert s[1..66] == key && s[1] == key[0] && s[66] == 0xac;
    assert PubKeyOf(c, s) == Some(key);
  }

  // The special forms: a tag, and the hash or the x coordinate.
  lemma SpecialForms(c: Curve, body: seq<Byte>, key: seq<Byte>)
    ensures |body| == 20 ==> WriteScript(c, [0x76, 0xa9, 20] + body + [0x88, 0xac]) == [0] + body
    ensures |body| == 20 ==> WriteScript(c, [0xa9, 20] + body + [0x87]) == [1] + body
    ensures |key| == 33 && (key[0] == 2 || key[0] == 3) ==> WriteScript(c, [33] + key + [0xac]) == key
    ensures |key| == 65 && key[0] == 4 && c.fullyValid(key) ==> WriteScript(c, [65] + key + [0xac]) == [4 + key[64] % 2] + key[1..33]
  {
    if |body| == 20 {
      KeyHashForm(c, body);
      ScriptHashForm(c, body);
    }
    if |key| == 33 && (key[0] == 2 || key[0] == 3) {
      ShortKeyForm(c, key);
    }
    if |key| == 65 && key[0] == 4 && c.fullyValid(key) {
      LongKeyForm(c, key);
    }
    hide WriteScript;
  }

  // ----- the examples of stored records -----

  /** A payment to a key hash. */
  function ToKeyHash(address: seq<Byte>): seq<Byte>
  {
    [0x76, 0xa9, 20] + address + [0x88, 0xac]
  }

  lemma KeyHashWritten(c: Curve, address: seq<Byte>)
    requires |address| == 20
    ensures WriteScript(c, ToKeyHash(address)) == [0x00] + address
  {
    KeyHashForm(c, address);
    hide WriteScript;
  }

  lemma FitsWord(n: nat)
    requires n < TWO64
    ensures n % TWO64 == n
  {
  }

  lemma OutWritten(c: Curve, value: nat, address: seq<Byte>, compressed: nat, bytes: seq<Byte>)
    requires |address| == 20 && Compressed(value) == compressed < 0x1_0000_0000_0000_0000 && Written(compressed) == bytes
    ensures WriteOut(c, TxOut(value, ToKeyHash(address))) == bytes + ([0x00] + address)
  {
    hide Compressed, Written, WriteScript, ToKeyHash;
    KeyHashWritten(c, address);
    FitsWord(compressed);
    var out := TxOut(value, ToKeyHash(address));
    assert out.value == value && Compressed(out.value) % TWO64 == compressed;
  }

  // A form of up to three bytes, and one more byte.
  lemma FormOfBytes(a: nat, b: nat, c: nat)
    requires a < 128 && b < 128 && c < 128
    ensures Written(a) == [a] && Leading(a) == [a + 128]
    ensures Written(128 * (a + 1) + b) == [a + 128, b] && Leading(128 * (a + 1) + b) == [a + 128, b + 128]
    ensures Written(128 * (128 * (a + 1) + b + 1) + c) == [a + 128, b + 128, c]
    ensures Leading(128 * (128 * (a + 1) + b + 1) + c) == [a + 128, b + 128, c + 128]
  {
    hide Meant;
    FormMore(a, b);
    FormMore(128 * (a + 1) + b, c);
  }

  lemma WrittenExamples()
    ensures Written(1) == [0x01] && Written(4) == [0x04] && Written(9) == [0x09]
    ensures Written(600) == [0x83, 0x58] && Written(203_998) == [0x8b, 0xb8, 0x5e] && Written(120_891) == [0x86, 0xaf, 0x3b]
    ensures Written(2_114_333_561) == [0x86, 0xef, 0x97, 0xd5, 0x79] && Written(993_571) == [0xbb, 0xd1, 0x23]
  {
    hide *;
    FormOfBytes(1, 0, 0);
    FormOfBytes(4, 0, 0);
    FormOfBytes(9, 0, 0);
    FormOfBytes(0x03, 0x58, 0);
    FormOfBytes(0x0b, 0x38, 0x5e);
    FormOfBytes(0x06, 0x2f, 0x3b);
    FormOfBytes(0x3b, 0x51, 0x23);
    FormOfBytes(0x06, 0x6f, 0x17);
    FormMore(128 * (128 * (0x06 + 1) + 0x6f + 1) + 0x17, 0x55);
    FormMore(128 * (128 * (128 * (0x06 + 1) + 0x6f + 1) + 0x17 + 1) + 0x55, 0x79);
  }

  lemma AmountsOfExamples()
    ensures Compressed(60_000_000_000) == 600 && Compressed(234_925_952) == 2_114_333_561 && Compressed(110_397) == 993_571
  {
    hide *;
    TenToValues();
    FormOf(60, 9, 1_000_000_000, 60_000_000_000);
    FormOf(234_925_952, 0, 1, 234_925_952);
    FormOf(110_397, 0, 1, 110_397);
  }

  lemma SecondOnly(c: Curve, out: TxOut)
    requires !out.IsNull()
    ensures MaskCode([NULL_OUT, out]) == 0 && MaskSize([NULL_OUT, out]) == 0 && HasFirst([NULL_OUT, out])
    ensures WriteOuts(c, [NULL_OUT, out]) == WriteOut(c, out)
  {
    var vout := [NULL_OUT, out];
    assert vout[1..] == [out] && [out][1..] == [];
    hide WriteOut;
    assert WriteOuts(c, [out]) == WriteOut(c, out) + WriteOuts(c, []);
  }

  lemma SerializedParts(c: Curve, r: Coins, version: seq<Byte>, code: seq<Byte>, mask: seq<Byte>, outs: seq<Byte>, height: seq<Byte>)
    requires HasFirst(r.vout) || MaskCode(r.vout) > 0
    requires Written(r.version) == version && Written(Code(r)) == code && MaskBytes(r.vout, 0, MaskSize(r.vout)) == mask
    requires WriteOuts(c, r.vout) == outs && Written(r.height) == height
    ensures Serialized(c, r) == version + code + mask + outs + height
  {
    hide Written, WriteOuts, MaskBytes, MaskSize, MaskCode, Code, HasFirst;
  }

  lemma FirstCode(r: Coins)
    requires !r.coinbase && MaskCode(r.vout) == 0 && !HasAt(r.vout, 0) && HasAt(r.vout, 1)
    ensures HasFirst(r.vout) && Code(r) == 4
  {
    hide MaskCode, HasAt;
  }

  lemma FirstBytes(address: seq<Byte>)
    ensures [0x01] + [0x04] + [] + ([0x83, 0x58] + ([0x00] + address)) + [0x8b, 0xb8, 0x5e]
            == [0x01, 0x04] + [0x83, 0x58, 0x00] + address + [0x8b, 0xb8, 0x5e]
  {
  }

  // Version 1, the second output with 600 coins, height 203998.
  lemma FirstExample(c: Curve, address: seq<Byte>)
    requires |address| == 20
    ensures var r := Coins(false, [NULL_OUT, TxOut(60_000_000_000, ToKeyHash(address))], 203_998, 1);
            && HasFirst(r.vout)
            && Serialized(c, r) == [0x01, 0x04] + [0x83, 0x58, 0x00] + address + [0x8b, 0xb8, 0x5e]
  {
    var out := TxOut(60_000_000_000, ToKeyHash(address));
    var r := Coins(false, [NULL_OUT, out], 203_998, 1);
    assert !out.IsNull() && !HasAt(r.vout, 0) && HasAt(r.vout, 1);
    SecondOnly(c, out);
    FirstCode(r);
    assert MaskBytes(r.vout, 0, 0) == [];
    hide *;
    AmountsOfExamples();
    WrittenExamples();
    OutWritten(c, 60_000_000_000, address, 600, [0x83, 0x58]);
    SerializedParts(c, r, [0x01], [0x04], [], [0x83, 0x58] + ([0x00] + address), [0x8b, 0xb8, 0x5e]);
    FirstBytes(address);
  }

  // ----- the second example -----

  function Nulls(n: nat): (r: seq<TxOut>)
    ensures |r| == n && forall i :: 0 <= i < n ==> r[i] == NULL_OUT
  {
    seq(n, _ => NULL_OUT)
  }

  lemma {:induction false} NullsWriteNothing(c: Curve, n: nat, rest: seq<TxOut>)
    ensures WriteOuts(c, Nulls(n) + rest) == WriteOuts(c, rest)
  {
    if n == 0 {
      assert Nulls(0) + rest == rest;
    } else {
      assert (Nulls(n) + rest)[1..] == Nulls(n - 1) + rest;
      NullsWriteNothing(c, n - 1, rest);
    }
  }

  lemma OneOutWritten(c: Curve, out: TxOut, rest: seq<TxOut>)
    requires !out.IsNull()
    ensures WriteOuts(c, [out] + rest) == WriteOut(c, out) + WriteOuts(c, rest)
  {
    assert ([out] + rest)[1..] == rest;
    hide WriteOut;
  }

  /** Seventeen outputs of which two are unspent. */
  function Seventeen(fifth: TxOut, last: TxOut): (r: seq<TxOut>)
    ensures |r| == 17 && r[4] == fifth && r[16] == last && forall i :: 0 <= i < 16 && i != 4 ==> r[i] == NULL_OUT
  {
    Nulls(4) + ([fifth] + (Nulls(11) + [last]))
  }

  lemma {:induction false} BitsFrom(vout: seq<TxOut>, b: nat, p: nat, n: nat)
    requires n <= 8 && forall q :: 0 <= q < 8 ==> (GroupHas(vout, b, q) <==> q == p)
    ensures MaskBits(vout, b, n) == if p < n then Pow2(p) else 0
  {
    hide GroupHas, Pow2;
    if n > 0 {
      BitsFrom(vout, b, p, n - 1);
    }
  }

  lemma OnlyBit(vout: seq<TxOut>, b: nat, p: nat)
    requires p < 8 && forall q :: 0 <= q < 8 ==> (GroupHas(vout, b, q) <==> q == p)
    ensures MaskByte(vout, b) == Pow2(p)
  {
    BitsFrom(vout, b, p, 8);
  }

  lemma SeventeenMask(fifth: TxOut, last: TxOut)
    requires !fifth.IsNull() && !last.IsNull()
    ensures var vout := Seventeen(fifth, last);
            && MaskByte(vout, 0) == 0x04 && MaskByte(vout, 1) == 0x40 && Groups(vout) == 2
            && !HasAt(vout, 0) && !HasAt(vout, 1)
  {
    var vout := Seventeen(fifth, last);
    hide Seventeen;
    OnlyBit(vout, 0, 2);
    OnlyBit(vout, 1, 6);
    assert Pow2(2) == 4 && Pow2(6) == 64;
    hide MaskByte;
  }

  lemma TwoMaskBytes(vout: seq<TxOut>)
    requires MaskByte(vout, 0) != 0 && MaskByte(vout, 1) != 0 && Groups(vout) == 2
    ensures MaskCode(vout) == 2 && MaskSize(vout) == 2 && MaskBytes(vout, 0, 2) == [MaskByte(vout, 0), MaskByte(vout, 1)]
  {
    hide MaskByte, Groups;
    assert NonZero(vout, 2, 2) == 0;
    assert NonZero(vout, 1, 2) == 1;
    assert MaskBytes(vout, 2, 2) == [];
    assert MaskBytes(vout, 1, 2) == [MaskByte(vout, 1)];
  }

  lemma SeventeenWritten(c: Curve, fifth: TxOut, last: TxOut)
    requires !fifth.IsNull() && !last.IsNull()
    ensures WriteOuts(c, Seventeen(fifth, last)) == WriteOut(c, fifth) + WriteOut(c, last)
  {
    hide WriteOut, Nulls;
    NullsWriteNothing(c, 4, [fifth] + (Nulls(11) + [last]));
    OneOutWritten(c, fifth, Nulls(11) + [last]);
    NullsWriteNothing(c, 11, [last]);
    assert [last] + [] == [last];
    OneOutWritten(c, last, []);
  }

  lemma SecondCode(c: Coins)
    requires c.coinbase && MaskCode(c.vout) == 2 && !HasAt(c.vout, 0) && !HasAt(c.vout, 1)
    ensures Code(c) == 9
  {
    hide MaskCode, HasAt;
  }

  lemma SecondBytes(a: seq<Byte>, b: seq<Byte>)
    ensures [0x01] + [0x09] + [0x04, 0x40] + ([0x86, 0xef, 0x97, 0xd5, 0x79] + ([0x00] + a) + ([0xbb, 0xd1, 0x23] + ([0x00] + b))) + [0x86, 0xaf, 0x3b]
            == [0x01, 0x09, 0x04, 0x40] + [0x86, 0xef, 0x97, 0xd5, 0x79, 0x00] + a + [0xbb, 0xd1, 0x23, 0x00] + b + [0x86, 0xaf, 0x3b]
  {
  }

  // Version 1, a coinbase, outputs 4 and 16 with 234925952 and 110397, height 120891.
  lemma SecondExample(c: Curve, a: seq<Byte>, b: seq<Byte>)
    requires |a| == |b| == 20
    ensures var r := Coins(true, Seventeen(TxOut(234_925_952, ToKeyHash(a)), TxOut(110_397, ToKeyHash(b))), 120_891, 1);
            && MaskCode(r.vout) > 0
            && Serialized(c, r)
               == [0x01, 0x09, 0x04, 0x40] + [0x86, 0xef, 0x97, 0xd5, 0x79, 0x00] + a + [0xbb, 0xd1, 0x23, 0x00] + b + [0x86, 0xaf, 0x3b]
  {
    var fifth, last := TxOut(234_925_952, ToKeyHash(a)), TxOut(110_397, ToKeyHash(b));
    var r := Coins(true, Seventeen(fifth, last), 120_891, 1);
    assert !fifth.IsNull() && !last.IsNull();
    hide *;
    SeventeenMask(fifth, last);
    TwoMaskBytes(r.vout);
    SeventeenWritten(c, fifth, last);
    AmountsOfExamples();
    WrittenExamples();
    OutWritten(c, 234_925_952, a, 2_114_333_561, [0x86, 0xef, 0x97, 0xd5, 0x79]);
    OutWritten(c, 110_397, b, 993_571, [0xbb, 0xd1, 0x23]);
    SecondCode(r);
    SerializedParts(c, r, [0x01], [0x09], [0x04, 0x40],
                    [0x86, 0xef, 0x97, 0xd5, 0x79] + ([0x00] + a) + ([0xbb, 0xd1, 0x23] + ([0x00] + b)), [0x86, 0xaf, 0x3b]);
    SecondBytes(a, b);
  }

  // ----- undo data -----

  lemma UndoBytes(c: Curve, u: TxInUndo, code: seq<Byte>, version: seq<Byte>, out: seq<Byte>)
    requires Written(2 * u.height + if u.coinbase then 1 else 0) == code && WriteOut(c, u.out) == out
    requires version == if u.height > 0 then Written(u.version) else []
    ensures UndoSerialized(c, u) == code + version + out
  {
    hide Written, WriteOut;
  }

  lemma UndoneBytes(address: seq<Byte>)
    ensures [0x09] + [0x01] + ([0x83, 0x58] + ([0x00] + address)) == [0x09, 0x01] + [0x83, 0x58, 0x00] + address
    ensures [0x00] + [] + ([0x83, 0x58] + ([0x00] + address)) == [0x00] + [0x83, 0x58, 0x00] + address
  {
  }

  // A coinbase output of height 4 and version 1: twice the height and one, the
  // version, and the output.  Without a height there is no version.
  lemma UndoExamples(c: Curve, address: seq<Byte>)
    requires |address| == 20
    ensures var out := TxOut(60_000_000_000, ToKeyHash(address));
            && UndoSerialized(c, TxInUndo(out, true, 4, 1)) == [0x09, 0x01] + [0x83, 0x58, 0x00] + address
            && UndoSerialized(c, TxInUndo(out, false, 0, 0)) == [0x00] + [0x83, 0x58, 0x00] + address
  {
    var out := TxOut(60_000_000_000, ToKeyHash(address));
    hide *;
    AmountsOfExamples();
    WrittenExamples();
    FormOfBytes(0, 0, 0);
    OutWritten(c, 60_000_000_000, address, 600, [0x83, 0x58]);
    UndoBytes(c, TxInUndo(out, true, 4, 1), [0x09], [0x01], [0x83, 0x58] + ([0x00] + address));
    UndoBytes(c, TxInUndo(out, false, 0, 0), [0x00], [], [0x83, 0x58] + ([0x00] + address));
    UndoneBytes(address);
  }
}
