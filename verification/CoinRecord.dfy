// The stored form of a pruned record: version, a code with the first two
// outputs, a bit mask of the others, the unspent outputs, and the height.
module CoinRecord {
  import opened Wrappers
  import opened Nonlinear
  import opened Coins
  import opened VarInt
  import opened ScriptCodec

  predicate HasAt(vout: seq<TxOut>, i: nat)
  {
    i < |vout| && !vout[i].IsNull()
  }

  // ----- the bit mask -----

  /** Bit `p` of mask byte `b` speaks of this output. */
  predicate GroupHas(vout: seq<TxOut>, b: nat, p: nat)
  {
    HasAt(vout, 2 + 8 * b + p)
  }

  /** The first `n` bits of mask byte `b`. */
  function MaskBits(vout: seq<TxOut>, b: nat, n: nat): (m: nat)
    ensures m < Pow2(n)
  {
    if n == 0 then 0 else MaskBits(vout, b, n - 1) + if GroupHas(vout, b, n - 1) then Pow2(n - 1) else 0
  }

  function MaskByte(vout: seq<TxOut>, b: nat): Byte
  {
    assert Pow2(8) == 256;
    MaskBits(vout, b, 8)
  }

  lemma TopBitOf(low: nat, p: nat)
    requires low < Pow2(p)
    ensures !TestBit(low, p) && TestBit(low + Pow2(p), p)
  {
    hide Pow2;
    DivModUnique(low + Pow2(p), Pow2(p), 1, low);
    DivModUnique(low, Pow2(p), 0, low);
  }

  lemma ParityKept(x: nat, d: nat, k: nat)
    requires d > 0
    ensures (x + d * (2 * k)) / d % 2 == x / d % 2
  {
    var q, r := x / d, x % d;
    assert x == d * q + r;
    Distribute(d, q, 2 * k);
    DivModUnique(x + d * (2 * k), d, q + 2 * k, r);
  }

  lemma {:induction false} EvenPart(n: nat, p: nat) returns (k: nat)
    requires p < n
    ensures Pow2(n) == Pow2(p) * (2 * k)
    decreases n
  {
    if p == n - 1 {
      k := 1;
    } else {
      k := EvenPart(n - 1, p);
      assert 2 * (Pow2(p) * (2 * k)) == Pow2(p) * (2 * (2 * k));
      k := 2 * k;
    }
  }

  // A bit above does not change the bits below.
  lemma HigherBit(x: nat, n: nat, p: nat)
    requires p < n
    ensures TestBit(x + Pow2(n), p) <==> TestBit(x, p)
  {
    var k := EvenPart(n, p);
    hide Pow2;
    ParityKept(x, Pow2(p), k);
  }

  lemma {:induction false} MaskBitAt(vout: seq<TxOut>, b: nat, n: nat, p: nat)
    requires p < n
    ensures TestBit(MaskBits(vout, b, n), p) <==> GroupHas(vout, b, p)
  {
    hide Pow2, TestBit, GroupHas;
    var low := MaskBits(vout, b, n - 1);
    if p == n - 1 {
      TopBitOf(low, p);
    } else {
      MaskBitAt(vout, b, n - 1, p);
      HigherBit(low, n - 1, p);
    }
  }

  lemma {:induction false} MaskIsZero(vout: seq<TxOut>, b: nat, n: nat)
    ensures MaskBits(vout, b, n) == 0 <==> forall p :: 0 <= p < n ==> !GroupHas(vout, b, p)
  {
    if n > 0 {
      MaskIsZero(vout, b, n - 1);
    }
  }

  /** How many groups of eight outputs follow the first two. */
  function Groups(vout: seq<TxOut>): nat
  {
    if |vout| <= 2 then 0 else (|vout| + 5) / 8
  }

  function NonZero(vout: seq<TxOut>, b: nat, n: nat): nat
    decreases n - b
  {
    if b >= n then 0 else (if MaskByte(vout, b) != 0 then 1 else 0) + NonZero(vout, b + 1, n)
  }

  /** The number of mask bytes up to the last one that is not zero. */
  function LastUsed(vout: seq<TxOut>, b: nat): nat
  {
    if b == 0 then 0 else if MaskByte(vout, b - 1) != 0 then b else LastUsed(vout, b - 1)
  }

  function MaskSize(vout: seq<TxOut>): nat
  {
    LastUsed(vout, Groups(vout))
  }

  function MaskCode(vout: seq<TxOut>): nat
  {
    NonZero(vout, 0, Groups(vout))
  }

  method GroupIsEmpty(vout: seq<TxOut>, b: nat) returns (fZero: bool)
    ensures fZero <==> MaskByte(vout, b) == 0
  {
    fZero := true;
    var i := 0;
    while i < 8 && 2 + b * 8 + i < |vout|
      invariant 0 <= i <= 8
      invariant fZero <==> forall p :: 0 <= p < i ==> !GroupHas(vout, b, p)
    {
      if !vout[2 + b * 8 + i].IsNull() {
        assert GroupHas(vout, b, i);
        fZero := false;
      }
      i := i + 1;
    }
    MaskIsZero(vout, b, 8);
  }

  method CalcMaskSize(vout: seq<TxOut>) returns (nBytes: nat, nNonzeroBytes: nat)
    ensures nBytes == MaskSize(vout) && nNonzeroBytes == MaskCode(vout)
  {
    hide MaskByte;
    nBytes, nNonzeroBytes := 0, 0;
    var b := 0;
    while 2 + b * 8 < |vout|
      invariant 0 <= b <= Groups(vout) && nBytes == LastUsed(vout, b)
      invariant nNonzeroBytes + NonZero(vout, b, Groups(vout)) == MaskCode(vout)
      decreases Groups(vout) - b
    {
      var fZero := GroupIsEmpty(vout, b);
      if !fZero {
        nBytes := b + 1;
        nNonzeroBytes := nNonzeroBytes + 1;
      }
      b := b + 1;
    }
  }

  lemma {:induction false} LastUsedIs(vout: seq<TxOut>, b: nat)
    ensures var n := LastUsed(vout, b);
            && n <= b && (n > 0 ==> MaskByte(vout, n - 1) != 0)
            && forall k :: n <= k < b ==> MaskByte(vout, k) == 0
  {
    if b > 0 {
      LastUsedIs(vout, b - 1);
    }
  }

  lemma {:induction false} NonZeroUpTo(vout: seq<TxOut>, b: nat, n: nat, m: nat)
    requires n <= m && forall k :: n <= k < m ==> MaskByte(vout, k) == 0
    ensures NonZero(vout, b, m) == NonZero(vout, b, n)
    decreases m - b
  {
    hide MaskByte;
    if b < m {
      NonZeroUpTo(vout, b + 1, n, m);
    }
  }

  // ----- writing -----

  function Flag(b: bool, weight: nat): nat
  {
    if b then weight else 0
  }

  predicate HasFirst(vout: seq<TxOut>)
  {
    HasAt(vout, 0) || HasAt(vout, 1)
  }

  function Code(c: Coins): nat
    requires HasFirst(c.vout) || MaskCode(c.vout) > 0
  {
    8 * (MaskCode(c.vout) - Flag(!HasFirst(c.vout), 1)) + Flag(c.coinbase, 1) + Flag(HasAt(c.vout, 0), 2) + Flag(HasAt(c.vout, 1), 4)
  }

  function MaskBytes(vout: seq<TxOut>, b: nat, n: nat): seq<Byte>
    decreases n - b
  {
    if b >= n then [] else [MaskByte(vout, b)] + MaskBytes(vout, b + 1, n)
  }

  function WriteOuts(curve: Curve, vout: seq<TxOut>): seq<Byte>
  {
    if vout == [] then []
    else (if vout[0].IsNull() then [] else WriteOut(curve, vout[0])) + WriteOuts(curve, vout[1..])
  }

  function Serialized(curve: Curve, c: Coins): seq<Byte>
    requires HasFirst(c.vout) || MaskCode(c.vout) > 0
  {
    Written(c.version) + Written(Code(c)) + MaskBytes(c.vout, 0, MaskSize(c.vout)) + WriteOuts(curve, c.vout) + Written(c.height)
  }

  lemma {:induction false} CountsNonZero(vout: seq<TxOut>, b: nat, n: nat, k: nat)
    requires b <= k < n && MaskByte(vout, k) != 0
    ensures NonZero(vout, b, n) > 0
    decreases n - b
  {
    hide MaskByte;
    if b < k {
      CountsNonZero(vout, b + 1, n, k);
    }
  }

  // The assert before writing holds of every record that is not fully spent.
  lemma UnspentIsWritable(c: Coins)
    requires !c.IsPruned()
    ensures HasFirst(c.vout) || MaskCode(c.vout) > 0
  {
    var i :| 0 <= i < |c.vout| && !c.vout[i].IsNull();
    assert HasAt(c.vout, i);
    if i >= 2 {
      var b, p := (i - 2) / 8, (i - 2) % 8;
      assert GroupHas(c.vout, b, p);
      MaskIsZero(c.vout, b, 8);
      CountsNonZero(c.vout, 0, Groups(c.vout), b);
    }
  }

  // ----- reading -----

  function Bits(ch: Byte, n: nat): seq<bool>
  {
    if n == 0 then [] else Bits(ch, n - 1) + [TestBit(ch, n - 1)]
  }

  function ReadMask(s: seq<Byte>, code: nat, avail: seq<bool>): Option<Read<seq<bool>>>
    decreases |s|
  {
    if code == 0 then Some(Read(avail, s))
    else if s == [] then None
    else ReadMask(s[1..], code - (if s[0] != 0 then 1 else 0), avail + Bits(s[0], 8))
  }

  function Before(out: TxOut, r: Option<Read<seq<TxOut>>>): Option<Read<seq<TxOut>>>
  {
    match r
    case None => None
    case Some(q) => Some(Read([out] + q.value, q.rest))
  }

  function ReadOuts(curve: Curve, s: seq<Byte>, avail: seq<bool>): Option<Read<seq<TxOut>>>
    decreases |avail|
  {
    if avail == [] then Some(Read([], s))
    else if avail[0] then
      match ReadOut(curve, s)
      case None => None
      case Some(r) => Before(r.value, ReadOuts(curve, r.rest, avail[1..]))
    else Before(NULL_OUT, ReadOuts(curve, s, avail[1..]))
  }

  function CodeAvail(code: nat): seq<bool>
  {
    [code / 2 % 2 == 1, code / 4 % 2 == 1]
  }

  function CodeMask(code: nat): nat
  {
    code / 8 + if code / 2 % 4 != 0 then 0 else 1
  }

  function Unserialized(curve: Curve, s: seq<Byte>): Option<Read<Coins>>
  {
    match ReadFrom(s, 0)
    case None => None
    case Some(version) =>
      match ReadFrom(version.rest, 0)
      case None => None
      case Some(code) =>
        match ReadMask(code.rest, CodeMask(code.value), CodeAvail(code.value))
        case None => None
        case Some(avail) =>
          match ReadOuts(curve, avail.rest, avail.value)
          case None => None
          case Some(vout) =>
            match ReadFrom(vout.rest, 0)
            case None => None
            case Some(height) =>
              Some(Read(Coins(code.value % 2 == 1, Trim(vout.value), height.value, version.value), height.rest))
  }

  // ----- reading back what was written -----

  /** Which outputs from `i` on, up to `j`, are there. */
  function Flags(vout: seq<TxOut>, i: nat, j: nat): seq<bool>
    requires i <= j
  {
    seq(j - i, k requires 0 <= k < j - i => HasAt(vout, i + k))
  }

  lemma {:induction false} BitsAre(vout: seq<TxOut>, b: nat, n: nat)
    requires n <= 8
    ensures Bits(MaskByte(vout, b), n) == Flags(vout, 2 + 8 * b, 2 + 8 * b + n)
  {
    if n > 0 {
      BitsAre(vout, b, n - 1);
      MaskBitAt(vout, b, 8, n - 1);
    }
  }

  lemma MaskAtEnd(vout: seq<TxOut>, b: nat, avail: seq<bool>, rest: seq<Byte>)
    ensures ReadMask(MaskBytes(vout, b, b) + rest, NonZero(vout, b, b), avail)
            == Some(Read(avail + Flags(vout, 2 + 8 * b, 2 + 8 * b), rest))
  {
    assert MaskBytes(vout, b, b) + rest == rest;
    assert avail + Flags(vout, 2 + 8 * b, 2 + 8 * b) == avail;
  }

  lemma MaskNext(vout: seq<TxOut>, b: nat, n: nat, rest: seq<Byte>)
    requires b < n && MaskByte(vout, n - 1) != 0
    ensures MaskBytes(vout, b, n) + rest == [MaskByte(vout, b)] + (MaskBytes(vout, b + 1, n) + rest)
    ensures NonZero(vout, b, n) > 0 && NonZero(vout, b + 1, n) == NonZero(vout, b, n) - if MaskByte(vout, b) != 0 then 1 else 0
  {
    hide MaskByte;
    CountsNonZero(vout, b, n, n - 1);
  }

  lemma ReadMaskStep(ch: Byte, tail: seq<Byte>, code: nat, avail: seq<bool>)
    requires code > 0
    ensures ReadMask([ch] + tail, code, avail) == ReadMask(tail, code - (if ch != 0 then 1 else 0), avail + Bits(ch, 8))
  {
    assert ([ch] + tail)[1..] == tail;
  }

  lemma FlagsJoin(vout: seq<TxOut>, b: nat, n: nat, avail: seq<bool>)
    requires b < n
    ensures avail + Flags(vout, 2 + 8 * b, 2 + 8 * b + 8) + Flags(vout, 2 + 8 * (b + 1), 2 + 8 * n) == avail + Flags(vout, 2 + 8 * b, 2 + 8 * n)
  {
  }

  // The loop over the mask ends exactly at its last non-zero byte.
  lemma {:induction false} ReadMaskBack(vout: seq<TxOut>, b: nat, n: nat, avail: seq<bool>, rest: seq<Byte>)
    requires b <= n && (n > b ==> MaskByte(vout, n - 1) != 0)
    ensures ReadMask(MaskBytes(vout, b, n) + rest, NonZero(vout, b, n), avail)
            == Some(Read(avail + Flags(vout, 2 + 8 * b, 2 + 8 * n), rest))
    decreases n - b
  {
    hide *;
    if b == n {
      MaskAtEnd(vout, b, avail, rest);
    } else {
      var ch := MaskByte(vout, b);
      var tail := MaskBytes(vout, b + 1, n) + rest;
      MaskNext(vout, b, n, rest);
      ReadMaskStep(ch, tail, NonZero(vout, b, n), avail);
      ReadMaskBack(vout, b + 1, n, avail + Bits(ch, 8), rest);
      BitsAre(vout, b, 8);
      FlagsJoin(vout, b, n, avail);
    }
  }

  /** The first `m` outputs; where there is none, a spent one. */
  function Resized(vout: seq<TxOut>, m: nat): seq<TxOut>
  {
    seq(m, i requires 0 <= i < m => if i < |vout| then vout[i] else NULL_OUT)
  }

  // One output is read, or one is left out.
  lemma ReadOutsStep(curve: Curve, out: TxOut, there: bool, avail: seq<bool>, s: seq<Byte>, tail: seq<Byte>)
    requires avail != [] && avail[0] == there
    requires if there then ReadOut(curve, s) == Some(Read(out, tail)) else out == NULL_OUT && s == tail
    ensures ReadOuts(curve, s, avail) == Before(out, ReadOuts(curve, tail, avail[1..]))
  {
  }

  lemma NothingRead(curve: Curve, vout: seq<TxOut>, rest: seq<Byte>)
    ensures ReadOuts(curve, [] + rest, Flags(vout, 0, 0)) == Some(Read(Resized(vout, 0), rest))
  {
    assert [] + rest == rest && Flags(vout, 0, 0) == [] && Resized(vout, 0) == [];
  }

  lemma NoneLeft(m: nat)
    requires m > 0
    ensures Flags([], 0, m) != [] && !Flags([], 0, m)[0] && Flags([], 0, m)[1..] == Flags([], 0, m - 1)
    ensures Resized([], m) == [NULL_OUT] + Resized([], m - 1)
  {
  }

  lemma ResizedTail(vout: seq<TxOut>, m: nat)
    requires vout != [] && m > 0
    ensures Resized(vout, m) == [vout[0]] + Resized(vout[1..], m - 1)
  {
  }

  lemma TailOk(vout: seq<TxOut>, m: nat)
    requires vout != [] && NullsAreCanonical(vout) && ValuesInRange(vout) && forall i :: m <= i < |vout| ==> vout[i].IsNull()
    ensures NullsAreCanonical(vout[1..]) && ValuesInRange(vout[1..])
    ensures m > 0 ==> forall i :: m - 1 <= i < |vout[1..]| ==> vout[1..][i].IsNull()
  {
  }

  lemma FlagsTail(vout: seq<TxOut>, m: nat)
    requires vout != [] && m > 0
    ensures Flags(vout, 0, m) != [] && Flags(vout, 0, m)[0] == !vout[0].IsNull() && Flags(vout, 0, m)[1..] == Flags(vout[1..], 0, m - 1)
  {
    forall k | 0 <= k < m - 1 ensures Flags(vout, 0, m)[1..][k] == Flags(vout[1..], 0, m - 1)[k] {
      assert HasAt(vout, k + 1) <==> HasAt(vout[1..], k);
    }
  }

  lemma {:induction false} NothingWritten(curve: Curve, vout: seq<TxOut>)
    requires forall i :: 0 <= i < |vout| ==> vout[i].IsNull()
    ensures WriteOuts(curve, vout) == []
  {
    if vout != [] {
      NothingWritten(curve, vout[1..]);
    }
  }

  lemma {:induction false} ReadOutsBack(curve: Curve, vout: seq<TxOut>, m: nat, rest: seq<Byte>)
    requires Lawful(curve) && NullsAreCanonical(vout) && ValuesInRange(vout)
    requires forall i :: m <= i < |vout| ==> vout[i].IsNull()
    ensures ReadOuts(curve, WriteOuts(curve, vout) + rest, Flags(vout, 0, m)) == Some(Read(Resized(vout, m), rest))
    decreases m + |vout|
  {
    hide Lawful, ReadOuts, ReadOut, WriteOut, Flags, Resized;
    if m == 0 {
      NothingWritten(curve, vout);
      NothingRead(curve, vout, rest);
    } else if vout == [] {
      ReadOutsBack(curve, [], m - 1, rest);
      NoneLeft(m);
      ReadOutsStep(curve, NULL_OUT, false, Flags([], 0, m), rest, rest);
      assert WriteOuts(curve, []) + rest == rest;
    } else {
      TailOk(vout, m);
      var tail := WriteOuts(curve, vout[1..]) + rest;
      ReadOutsBack(curve, vout[1..], m - 1, rest);
      FlagsTail(vout, m);
      ResizedTail(vout, m);
      if vout[0].IsNull() {
        assert WriteOuts(curve, vout) + rest == tail;
        ReadOutsStep(curve, NULL_OUT, false, Flags(vout, 0, m), tail, tail);
      } else {
        ReadWriteOut(curve, vout[0], tail);
        assert WriteOuts(curve, vout) + rest == WriteOut(curve, vout[0]) + tail;
        ReadOutsStep(curve, vout[0], true, Flags(vout, 0, m), WriteOut(curve, vout[0]) + tail, tail);
      }
    }
  }

  lemma {:induction false} TrimDropsNulls(vout: seq<TxOut>, k: nat)
    requires k <= |vout| && forall i :: k <= i < |vout| ==> vout[i].IsNull()
    ensures Trim(vout) == Trim(vout[..k])
  {
    if k < |vout| {
      TrimDropsNulls(vout[..|vout| - 1], k);
      assert vout[..|vout| - 1][..k] == vout[..k];
    } else {
      assert vout[..k] == vout;
    }
  }

  // No output is left out by the mask.
  lemma MaskCoversAll(vout: seq<TxOut>)
    ensures forall i :: 2 + 8 * MaskSize(vout) <= i < |vout| ==> vout[i].IsNull()
  {
    LastUsedIs(vout, Groups(vout));
    forall i | 2 + 8 * MaskSize(vout) <= i < |vout| ensures vout[i].IsNull() {
      var b, p := (i - 2) / 8, (i - 2) % 8;
      MaskIsZero(vout, b, 8);
      assert MaskByte(vout, b) == 0;
      assert !GroupHas(vout, b, p);
    }
  }

  lemma TwoBits(k: nat, low: nat)
    requires low < 4
    ensures (4 * k + low) % 2 == low % 2 && (4 * k + low) % 4 == low
  {
    DivModUnique(4 * k + low, 4, k, low);
    DivModUnique(4 * k + low, 2, 2 * k + low / 2, low % 2);
  }

  lemma LowBits(k: nat, low: nat)
    requires low < 8
    ensures (8 * k + low) / 8 == k && (8 * k + low) % 2 == low % 2
    ensures (8 * k + low) / 2 % 2 == low / 2 % 2 && (8 * k + low) / 2 % 4 == low / 2 && (8 * k + low) / 4 % 2 == low / 4
  {
    assert (8 * k + low) / 2 == 4 * k + low / 2;
    TwoBits(k, low / 2);
    assert (8 * k + low) / 4 == 2 * k + low / 4;
  }

  lemma CodeFields(k: nat, b0: bool, b1: bool, b2: bool)
    ensures var code := 8 * k + Flag(b0, 1) + Flag(b1, 2) + Flag(b2, 4);
            && (code % 2 == 1 <==> b0) && (code / 2 % 2 == 1 <==> b1) && (code / 4 % 2 == 1 <==> b2)
            && code / 8 == k && (code / 2 % 4 != 0 <==> b1 || b2)
  {
    LowBits(k, Flag(b0, 1) + Flag(b1, 2) + Flag(b2, 4));
  }

  lemma CodeParts(c: Coins)
    requires HasFirst(c.vout) || MaskCode(c.vout) > 0
    ensures Code(c) % 2 == 1 <==> c.coinbase
    ensures CodeAvail(Code(c)) == Flags(c.vout, 0, 2)
    ensures CodeMask(Code(c)) == MaskCode(c.vout)
  {
    hide MaskCode;
    CodeFields(MaskCode(c.vout) - Flag(!HasFirst(c.vout), 1), c.coinbase, HasAt(c.vout, 0), HasAt(c.vout, 1));
    hide HasAt;
    assert Flags(c.vout, 0, 2) == [HasAt(c.vout, 0), HasAt(c.vout, 1)];
  }

  lemma MaskCodeIs(vout: seq<TxOut>)
    ensures MaskCode(vout) == NonZero(vout, 0, MaskSize(vout))
    ensures MaskSize(vout) > 0 ==> MaskByte(vout, MaskSize(vout) - 1) != 0
  {
    LastUsedIs(vout, Groups(vout));
    NonZeroUpTo(vout, 0, MaskSize(vout), Groups(vout));
  }

  lemma FirstFlags(vout: seq<TxOut>, n: nat)
    ensures Flags(vout, 0, 2) + Flags(vout, 2, 2 + 8 * n) == Flags(vout, 0, 2 + 8 * n)
  {
  }

  lemma MaskBack(c: Coins, rest: seq<Byte>)
    requires HasFirst(c.vout) || MaskCode(c.vout) > 0
    ensures var n := MaskSize(c.vout);
            ReadMask(MaskBytes(c.vout, 0, n) + rest, CodeMask(Code(c)), CodeAvail(Code(c))) == Some(Read(Flags(c.vout, 0, 2 + 8 * n), rest))
  {
    hide *;
    MaskCodeIs(c.vout);
    CodeParts(c);
    ReadMaskBack(c.vout, 0, MaskSize(c.vout), Flags(c.vout, 0, 2), rest);
    FirstFlags(c.vout, MaskSize(c.vout));
  }

  lemma SerializedParts(curve: Curve, c: Coins, rest: seq<Byte>)
    requires HasFirst(c.vout) || MaskCode(c.vout) > 0
    ensures Serialized(curve, c) + rest
            == Written(c.version) + (Written(Code(c)) + (MaskBytes(c.vout, 0, MaskSize(c.vout)) + (WriteOuts(curve, c.vout) + (Written(c.height) + rest))))
  {
    hide Written, Code, MaskBytes, MaskSize, WriteOuts, MaskCode;
  }

  // The reader's steps in a row.
  lemma UnserializedIs(curve: Curve, s: seq<Byte>, version: Read<nat>, code: Read<nat>, avail: Read<seq<bool>>, vout: Read<seq<TxOut>>, height: Read<nat>)
    requires ReadFrom(s, 0) == Some(version) && ReadFrom(version.rest, 0) == Some(code)
    requires ReadMask(code.rest, CodeMask(code.value), CodeAvail(code.value)) == Some(avail)
    requires ReadOuts(curve, avail.rest, avail.value) == Some(vout) && ReadFrom(vout.rest, 0) == Some(height)
    ensures Unserialized(curve, s) == Some(Read(Coins(code.value % 2 == 1, Trim(vout.value), height.value, version.value), height.rest))
  {
    hide ReadFrom, ReadMask, ReadOuts, CodeMask, CodeAvail, Trim;
  }

  lemma ResizedTrims(vout: seq<TxOut>, m: nat)
    requires forall i :: m <= i < |vout| ==> vout[i].IsNull()
    ensures Trim(Resized(vout, m)) == Trim(vout)
  {
    var r := Resized(vout, m);
    if m <= |vout| {
      assert r == vout[..m];
      TrimDropsNulls(vout, m);
    } else {
      assert r[..|vout|] == vout;
      TrimDropsNulls(r, |vout|);
    }
  }

  // The record as it comes back from the disk.
  lemma UnserializeSerialize(curve: Curve, c: Coins, rest: seq<Byte>)
    requires Lawful(curve) && !c.IsPruned() && NullsAreCanonical(c.vout) && ValuesInRange(c.vout)
    ensures HasFirst(c.vout) || MaskCode(c.vout) > 0
    ensures Unserialized(curve, Serialized(curve, c) + rest)
            == Some(Read(c.(vout := Trim(c.vout), version := Kept(c.version), height := Kept(c.height)), rest))
  {
    UnspentIsWritable(c);
    hide *;
    var n := MaskSize(c.vout);
    MaskCoversAll(c.vout);
    CodeParts(c);
    var s5 := Written(c.height) + rest;
    var s4 := WriteOuts(curve, c.vout) + s5;
    var s3 := MaskBytes(c.vout, 0, n) + s4;
    var s2 := Written(Code(c)) + s3;
    SerializedParts(curve, c, rest);
    ReadWritten(c.version, s2);
    ReadWritten(Code(c), s3);
    MaskBack(c, s4);
    ReadOutsBack(curve, c.vout, 2 + 8 * n, s5);
    ReadWritten(c.height, rest);
    ResizedTrims(c.vout, 2 + 8 * n);
    UnserializedIs(curve, Written(c.version) + s2, Read(Kept(c.version), s2), Read(Code(c), s3),
                   Read(Flags(c.vout, 0, 2 + 8 * n), s4), Read(Resized(c.vout, 2 + 8 * n), s5), Read(Kept(c.height), rest));
  }

  // Main result on stored records: a record that is not fully spent comes back
  // unchanged, up to spent outputs at its end, exactly when its version and
  // height are not negative.
  lemma StoredRecordComesBack(curve: Curve, c: Coins, rest: seq<Byte>)
    requires Lawful(curve) && !c.IsPruned() && NullsAreCanonical(c.vout) && ValuesInRange(c.vout)
    ensures HasFirst(c.vout) || MaskCode(c.vout) > 0
    ensures Unserialized(curve, Serialized(curve, c) + rest) == Some(Read(c.(vout := Trim(c.vout)), rest))
            <==> c.version >= 0 && c.height >= 0
  {
    UnserializeSerialize(curve, c, rest);
    var back := Unserialized(curve, Serialized(curve, c) + rest);
    hide Unserialized, Serialized, Trim, Lawful;
    assert back.value.value.version == Kept(c.version) && back.value.value.height == Kept(c.height);
  }
}
