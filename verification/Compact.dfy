// The 32-bit "compact" form of 256-bit numbers: a base-256 exponent, a sign
// bit and a mantissa of 23 bits.
module Compact {
  import opened Nonlinear
  import opened Limbs
  import opened LimbShifts
  import opened ArithUint256

  // The sign bit is 0x80_0000 and the size counts units of 0x100_0000.

  // ----- what a compact word denotes -----

  function Size(c: u32): nat
  {
    c / 0x100_0000
  }

  function Word(c: u32): nat
  {
    c % 0x80_0000
  }

  function Scale(k: nat): nat
  {
    Pow2(8 * k)
  }

  /** The mantissa that is left after the shift for small exponents. */
  function Mantissa(c: u32): (m: nat)
  {
    QuotientBound(Word(c), if Size(c) <= 3 then Scale(3 - Size(c)) else 1);
    if Size(c) <= 3 then Word(c) / Scale(3 - Size(c)) else Word(c)
  }

  /** The number without any limit of width. */
  function Denoted(c: u32): nat
  {
    if Size(c) <= 3 then Mantissa(c) else Mantissa(c) * Scale(Size(c) - 3)
  }

  function Decoded(c: u32): nat
  {
    Denoted(c) % MODULUS
  }

  predicate Negative(c: u32)
  {
    Mantissa(c) != 0 && TestBit(c, 23)
  }

  /** The flag as it is worked out from exponent and mantissa. */
  predicate Overflows(c: u32)
  {
    Mantissa(c) != 0 && (Size(c) > 34 || (Mantissa(c) > 0xff && Size(c) > 33) || (Mantissa(c) > 0xffff && Size(c) > 32))
  }

  lemma Fits(n: nat)
    requires n < BASE
    ensures n % MODULUS == n
  {
    Pow2Small();
    Pow2Monotonic(32, 256);
    DivModUnique(n, MODULUS, 0, n);
  }

  method SetCompact(x: BaseUint, c: u32) returns (negative: bool, overflow: bool)
    requires x.Valid()
    modifies x.pn
    ensures x.Val() == Decoded(c)
    ensures negative == Negative(c) && overflow == Overflows(c)
  {
    hide Pow2;
    var nSize := c / 0x100_0000;
    var nWord := c % 0x80_0000;
    if nSize <= 3 {
      nWord := Shr32(nWord, 8 * (3 - nSize));
      x.Set64(nWord);
      Fits(nWord);
    } else {
      x.Set64(nWord);
      x.ShiftLeft(8 * (nSize - 3));
    }
    negative := nWord != 0 && TestBit(c, 23);
    overflow := nWord != 0 && (nSize > 34 || (nWord > 0xff && nSize > 33) || (nWord > 0xffff && nSize > 32));
  }

  lemma MulCompare(p: nat, m: nat, b: nat)
    requires p > 0
    ensures m * p >= b * p <==> m >= b
  {
    if m >= b {
      MulMonotonic(p, b, m);
    } else {
      MulMonotonic(p, m + 1, b);
      Distribute(p, m, 1);
    }
  }

  lemma BigMantissa(m: nat, k: nat)
    requires 0 < m < 0x80_0000
    ensures m * Scale(k) >= MODULUS <==> k > 31 || (m > 0xff && k > 30) || (m > 0xffff && k > 29)
  {
    hide Pow2;
    Pow2Small();
    Pow2Times(24, 8 * 29, 256);
    Pow2Times(16, 8 * 30, 256);
    Pow2Times(8, 8 * 31, 256);
    if k > 31 {
      Pow2Monotonic(256, 8 * k);
      MulMonotonic(Scale(k), 1, m);
    } else if k > 30 {
      MulCompare(Scale(31), m, 0x100);
    } else if k > 29 {
      MulCompare(Scale(30), m, 0x1_0000);
    } else {
      Pow2Monotonic(8 * k, 8 * 29);
      MulMonotonic(m, Scale(k), Scale(29));
      MulCompare(Scale(29), m, 0x100_0000);
    }
  }

  // The overflow flag is set exactly when the number does not fit in 256 bits.
  lemma OverflowIsExact(c: u32)
    ensures Overflows(c) <==> Denoted(c) >= MODULUS
  {
    var n, m := Size(c), Mantissa(c);
    if n <= 3 {
      QuotientBound(Word(c), Scale(3 - n));
      Pow2Small();
      Pow2Monotonic(32, 256);
    } else {
      Pow2Small();
      hide Pow2, Mantissa;
      if m != 0 {
        BigMantissa(m, n - 3);
      }
    }
  }

  // ----- the compact word of a number -----

  function BitLength(v: nat): nat
  {
    if v == 0 then 0 else 1 + BitLength(v / 2)
  }

  lemma {:induction false} BitLengthBounds(v: nat)
    ensures IsBitLength(v, BitLength(v))
  {
    if v > 0 {
      BitLengthBounds(v / 2);
      if v == 1 {
        assert Pow2(0) == 1 && Pow2(1) == 2;
      }
    }
  }

  lemma BitLengthIs(v: nat, r: nat)
    requires IsBitLength(v, r)
    ensures r == BitLength(v)
  {
    BitLengthBounds(v);
    var t := BitLength(v);
    hide Pow2, BitLength;
    if v > 0 {
      if r < t {
        Pow2Monotonic(r, t - 1);
      }
      if t < r {
        Pow2Monotonic(t, r - 1);
      }
    }
  }

  /** Bytes that leave room for the sign bit. */
  function SizeOf(v: nat): nat
  {
    if v == 0 then 0 else BitLength(v) / 8 + 1
  }

  /** The top bits of a number of `n` bytes, as a number of three bytes. */
  function TopBytes(v: nat, n: nat): nat
  {
    if n <= 3 then v * Scale(3 - n)
    else
      QuotientBound(v, Scale(n - 3));
      v / Scale(n - 3)
  }

  function MantissaOf(v: nat): nat
  {
    TopBytes(v, SizeOf(v))
  }

  /** What the size is: the number has that many bytes, with the top bit free. */
  lemma SizeBounds(v: nat)
    requires v > 0
    ensures SizeOf(v) >= 1 && v < Pow2(8 * SizeOf(v) - 1)
    ensures 8 * SizeOf(v) >= 9 ==> Pow2(8 * SizeOf(v) - 9) <= v
  {
    BitLengthBounds(v);
    var l := BitLength(v);
    Pow2Monotonic(l, 8 * SizeOf(v) - 1);
    if 8 * SizeOf(v) >= 9 {
      Pow2Monotonic(8 * SizeOf(v) - 9, l - 1);
    }
  }

  lemma SizeUnique(v: nat, n: nat)
    requires v > 0 && n >= 1 && v < Pow2(8 * n - 1)
    requires 8 * n >= 9 ==> Pow2(8 * n - 9) <= v
    ensures SizeOf(v) == n
  {
    SizeBounds(v);
    var k := SizeOf(v);
    if k > n {
      Pow2Monotonic(8 * n - 1, 8 * k - 9);
    } else if k < n {
      Pow2Monotonic(8 * k - 1, 8 * n - 9);
    }
  }

  lemma DivCompare(v: nat, d: nat, b: nat)
    requires d > 0
    ensures v / d >= b <==> v >= b * d
  {
    var q := v / d;
    assert v == d * q + v % d;
    if q < b {
      MulMonotonic(d, q + 1, b);
      Distribute(d, q, 1);
    } else {
      MulMonotonic(d, b, q);
    }
  }

  // Comparing the top three bytes with a power of two compares the number.
  lemma TopBytesCompare(v: nat, n: nat, e: nat)
    requires n >= 1 && e <= 24 && e <= 8 * n
    ensures TopBytes(v, n) >= Pow2(24 - e) <==> v >= Pow2(8 * n - e)
  {
    hide Pow2;
    if n <= 3 {
      Pow2Times(8 * n - e, 8 * (3 - n), 24 - e);
      Pow2Positive(8 * (3 - n));
      MulCompare(Scale(3 - n), v, Pow2(8 * n - e));
    } else {
      Pow2Times(24 - e, 8 * (n - 3), 8 * n - e);
      Pow2Positive(8 * (n - 3));
      DivCompare(v, Scale(n - 3), Pow2(24 - e));
    }
  }

  lemma OneByte(v: nat)
    requires v > 0
    ensures TopBytes(v, 1) >= 0x8000
  {
    Pow2Small();
    MulMonotonic(Scale(2), 1, v);
  }

  // The mantissa has its top bit free and at least sixteen bits.
  lemma MantissaBounds(v: nat)
    requires v > 0
    ensures 0x8000 <= MantissaOf(v) < 0x80_0000
  {
    hide Pow2, SizeOf, TopBytes;
    SizeBounds(v);
    Pow2Small();
    TopBytesCompare(v, SizeOf(v), 1);
    if SizeOf(v) >= 2 {
      TopBytesCompare(v, SizeOf(v), 9);
    } else {
      OneByte(v);
    }
  }

  function Encoded(v: nat, negative: bool): nat
  {
    SizeOf(v) * 0x100_0000 + MantissaOf(v) + if negative && MantissaOf(v) != 0 then 0x80_0000 else 0
  }

  lemma SizeLimit(v: nat)
    requires v < MODULUS
    ensures SizeOf(v) <= 33
  {
    if v > 0 {
      SizeBounds(v);
      if SizeOf(v) > 33 {
        Pow2Monotonic(256, 8 * SizeOf(v) - 9);
      }
    }
  }

  lemma ZeroMantissa()
    ensures SizeOf(0) == 0 && MantissaOf(0) == 0
  {
  }

  lemma MantissaLimit(v: nat)
    ensures MantissaOf(v) < 0x80_0000 && (MantissaOf(v) != 0 <==> v != 0)
  {
    hide SizeOf, Pow2;
    if v > 0 {
      MantissaBounds(v);
    } else {
      ZeroMantissa();
    }
  }

  lemma EncodedAs(v: nat, negative: bool, n: nat, m: nat, sign: bool)
    requires n == SizeOf(v) && m == MantissaOf(v) && (sign <==> negative && m != 0)
    ensures Encoded(v, negative) == n * 0x100_0000 + m + if sign then 0x80_0000 else 0
  {
    hide SizeOf, MantissaOf;
  }

  lemma WordFields(n: nat, m: nat, sign: bool)
    requires n < 256 && m < 0x80_0000
    ensures var c := n * 0x100_0000 + m + if sign then 0x80_0000 else 0;
            && c < BASE && c / 0x100_0000 == n && c % 0x80_0000 == m && (TestBit(c, 23) <==> sign)
  {
    hide Pow2;
    Pow2Small();
    var s := if sign then 1 else 0;
    var c := n * 0x100_0000 + m + s * 0x80_0000;
    DivModUnique(c, 0x100_0000, n, m + 0x80_0000 * s);
    DivModUnique(c, 0x80_0000, 2 * n + s, m);
    DivModUnique(2 * n + s, 2, n, s);
  }

  lemma EncodedParts(v: nat, negative: bool)
    requires v < MODULUS
    ensures Encoded(v, negative) < BASE
    ensures Size(Encoded(v, negative)) == SizeOf(v) && Word(Encoded(v, negative)) == MantissaOf(v) < 0x80_0000
    ensures TestBit(Encoded(v, negative), 23) <==> negative && v != 0
  {
    SizeLimit(v);
    MantissaLimit(v);
    hide SizeOf, MantissaOf, TestBit, Pow2;
    var n, m, sign := SizeOf(v), MantissaOf(v), negative && MantissaOf(v) != 0;
    WordFields(n, m, sign);
    EncodedAs(v, negative, n, m, sign);
  }

  lemma ShortIsExact(v: nat, c: u32)
    requires v > 0 && SizeOf(v) <= 3 && Size(c) == SizeOf(v) && Word(c) == MantissaOf(v)
    ensures Denoted(c) == v
  {
    hide SizeOf, Size, Word, Pow2;
    var p := Scale(3 - SizeOf(v));
    Pow2Positive(8 * (3 - SizeOf(v)));
    DivModUnique(v * p, p, v, 0);
  }

  lemma RoundedDown(v: nat, p: nat)
    requires p > 0 && v / p >= 0x8000
    ensures v / p * p <= v && (v - v / p * p) * 0x8000 < v
  {
    var q, r := v / p, v % p;
    assert v == p * q + r;
    MulMonotonic(p, 0x8000, q);
  }

  lemma LongIsRounded(v: nat)
    requires v > 0 && SizeOf(v) > 3
    ensures var d := MantissaOf(v) * Scale(SizeOf(v) - 3);
            && d <= v && (v == d || (v - d) * 0x8000 < v)
            && SizeOf(d) == SizeOf(v) && MantissaOf(d) == MantissaOf(v)
  {
    SizeBounds(v);
    MantissaBounds(v);
    hide SizeOf, Pow2;
    var n, p := SizeOf(v), Scale(SizeOf(v) - 3);
    var m := v / p;
    Pow2Positive(8 * (n - 3));
    assert MantissaOf(v) == m;
    RoundedDown(v, p);
    Pow2Small();
    Pow2Times(15, 8 * (n - 3), 8 * n - 9);
    MulMonotonic(p, 0x8000, m);
    SizeUnique(m * p, n);
    DivModUnique(m * p, p, m, 0);
  }

  lemma Truncated(v: nat)
    requires 0 < v < MODULUS && Encoded(v, false) < BASE
    requires Size(Encoded(v, false)) == SizeOf(v) && Word(Encoded(v, false)) == MantissaOf(v)
    ensures var d := Denoted(Encoded(v, false));
            && d <= v && (v == d || (v - d) * 0x8000 < v)
            && Encoded(d, false) == Encoded(v, false)
  {
    var c := Encoded(v, false);
    if SizeOf(v) <= 3 {
      ShortIsExact(v, c);
    } else {
      LongIsRounded(v);
      hide SizeOf, MantissaOf;
    }
  }

  // Encoding truncates: the number decoded again is no larger, and smaller by
  // less than one part in 2^15.
  lemma DecodeEncode(v: nat)
    requires v < MODULUS
    ensures Encoded(v, false) < BASE
    ensures var c := Encoded(v, false);
            && !Negative(c) && !Overflows(c)
            && Decoded(c) <= v && (v == Decoded(c) || (v - Decoded(c)) * 0x8000 < v)
            && Encoded(Decoded(c), false) == c
  {
    EncodedParts(v, false);
    var c := Encoded(v, false);
    if v == 0 {
      ZeroMantissa();
      assert Mantissa(c) == 0 by {
        DivModUnique(0, Scale(3), 0, 0);
      }
      Fits(0);
    } else {
      Truncated(v);
      OverflowIsExact(c);
      hide Denoted, Mantissa;
      DivModUnique(Denoted(c), MODULUS, 0, Denoted(c));
    }
  }

  /** Size and mantissa before room is made for the sign. */
  function PlainSize(v: nat): nat
  {
    (BitLength(v) + 7) / 8
  }

  function PlainMantissa(v: nat): nat
  {
    TopBytes(v, PlainSize(v))
  }

  lemma PlainBounds(v: nat)
    requires v > 0
    ensures v < Pow2(8 * PlainSize(v)) && PlainMantissa(v) < 0x100_0000
    ensures PlainSize(v) >= 1
  {
    BitLengthBounds(v);
    Pow2Monotonic(BitLength(v), 8 * PlainSize(v));
    Pow2Small();
    assert PlainSize(v) >= 1;
    hide Pow2, PlainSize, BitLength, TopBytes;
    TopBytesCompare(v, PlainSize(v), 0);
  }

  lemma SmallResidue(n: nat)
    requires n < 0x100_0000
    ensures n % WORD64 == n
  {
  }

  // Low 64 bits are all there is to read.
  lemma ReadsWhole(v: nat)
    ensures PlainSize(v) <= 3 ==> v % WORD64 == v
    ensures PlainSize(v) > 3 ==> PlainMantissa(v) % WORD64 == PlainMantissa(v) == v / Pow2(8 * (PlainSize(v) - 3))
    ensures PlainSize(v) <= 3 ==> PlainMantissa(v) == v * Pow2(8 * (3 - PlainSize(v)))
  {
    if v > 0 {
      PlainBounds(v);
      if PlainSize(v) <= 3 {
        hide Pow2, PlainSize, TopBytes;
        Pow2Monotonic(8 * PlainSize(v), 24);
        Pow2Small();
        SmallResidue(v);
      } else {
        hide Pow2, PlainSize;
        SmallResidue(PlainMantissa(v));
      }
    } else {
      SmallResidue(0);
      assert PlainMantissa(0) == 0;
    }
  }

  lemma NoBit(k: nat)
    ensures !TestBit(0, k)
  {
    DivModUnique(0, Pow2(k), 0, 0);
  }

  lemma TopByteFull(v: nat)
    requires v > 0 && SizeOf(v) == PlainSize(v) + 1
    ensures PlainMantissa(v) >= 0x80_0000
  {
    SizeBounds(v);
    PlainBounds(v);
    Pow2Small();
    hide Pow2, SizeOf, PlainSize, TopBytes;
    TopBytesCompare(v, PlainSize(v), 1);
  }

  lemma ScaleZero()
    ensures Scale(0) == 1
  {
  }

  lemma DroppedByte(v: nat)
    requires v > 0 && SizeOf(v) == PlainSize(v) + 1
    ensures MantissaOf(v) == PlainMantissa(v) / 256
  {
    var n := PlainSize(v);
    Pow2Small();
    hide Pow2, SizeOf, PlainSize;
    if n <= 2 {
      Pow2Times(8 * (2 - n), 8, 8 * (3 - n));
      assert v * Scale(3 - n) == v * Scale(2 - n) * 256;
    } else if n == 3 {
      assert Scale(0) == 1 by {
        ScaleZero();
      }
    } else {
      Pow2Times(8 * (n - 3), 8, 8 * (n - 2));
      DivTwice(v, Scale(n - 3), 256);
    }
  }

  // When the sign bit is taken, one byte of the mantissa is dropped.
  lemma RoomForSign(v: nat)
    ensures PlainMantissa(v) < 0x100_0000
    ensures TestBit(PlainMantissa(v), 23) ==> SizeOf(v) == PlainSize(v) + 1 && MantissaOf(v) == PlainMantissa(v) / 256
    ensures !TestBit(PlainMantissa(v), 23) ==> SizeOf(v) == PlainSize(v) && MantissaOf(v) == PlainMantissa(v)
  {
    if v == 0 {
      assert PlainMantissa(0) == 0;
      NoBit(23);
    } else {
      PlainBounds(v);
      MantissaBounds(v);
      Pow2Small();
      TopBit(PlainMantissa(v), 23);
      if BitLength(v) % 8 == 0 {
        assert SizeOf(v) == PlainSize(v) + 1;
        DroppedByte(v);
        TopByteFull(v);
      } else {
        assert SizeOf(v) == PlainSize(v);
      }
    }
  }

  lemma LiftStep(x: nat, m: nat, p: nat)
    ensures (x * (2 * p) + m) / 2 == x * p + m / 2 && (x * (2 * p) + m) % 2 == m % 2
  {
    assert x * (2 * p) == 2 * (x * p);
  }

  lemma BitOrUnfold(x: nat, y: nat)
    ensures BitOr(x, y) == 2 * BitOr(x / 2, y / 2) + if x % 2 == 1 || y % 2 == 1 then 1 else 0
  {
  }

  lemma LiftOnce(x: nat, m: nat, y: nat, p: nat)
    requires BitOr(x * p + m / 2, y * p) == BitOr(x, y) * p + m / 2
    ensures BitOr(x * (2 * p) + m, y * (2 * p)) == BitOr(x, y) * (2 * p) + m
  {
    hide BitOr;
    LiftStep(x, m, p);
    LiftStep(y, 0, p);
    BitOrUnfold(x * (2 * p) + m, y * (2 * p));
    LiftStep(BitOr(x, y), m, p);
  }

  // Low bits stay when a multiple of the next power is or-ed in.
  lemma {:induction false} BitOrLift(x: nat, m: nat, y: nat, k: nat)
    requires m < Pow2(k)
    ensures BitOr(x * Pow2(k) + m, y * Pow2(k)) == BitOr(x, y) * Pow2(k) + m
  {
    hide BitOr;
    if k == 0 {
      assert Pow2(0) == 1;
    } else {
      BitOrLift(x, m / 2, y, k - 1);
      LiftOnce(x, m, y, Pow2(k - 1));
      assert Pow2(k) == 2 * Pow2(k - 1);
    }
  }

  lemma BitOrEven(x: nat)
    requires x % 2 == 0
    ensures BitOr(x, 1) == x + 1
  {
    BitOrUnfold(x, 1);
    BitOrZero(x / 2);
  }

  // The sign bit is free between mantissa and size.
  lemma BitOrSplit(x: nat, m: nat)
    requires m < 0x80_0000 && x % 0x100_0000 == 0
    ensures BitOr(x + m, 0x80_0000) == x + m + 0x80_0000
  {
    Pow2Small();
    hide Pow2, BitOr;
    var q := x / 0x100_0000;
    assert x == 2 * q * 0x80_0000;
    BitOrLift(2 * q, m, 1, 23);
    BitOrEven(2 * q);
  }

  lemma Joined(m: nat, n: nat)
    requires m < 0x80_0000 && n < 256
    ensures n * 0x100_0000 < BASE && Or32(m, n * 0x100_0000) == m + n * 0x100_0000
    ensures m + n * 0x100_0000 + 0x80_0000 < BASE && Or32(m + n * 0x100_0000, 0x80_0000) == m + n * 0x100_0000 + 0x80_0000
  {
    Pow2Small();
    hide Pow2, BitOr;
    DivModUnique(n * 0x100_0000, Pow2(24), n, 0);
    BitOrAdds(n * 0x100_0000, m, 24);
    BitOrSplit(n * 0x100_0000, m);
  }

  lemma EncodedIs(v: nat, negative: bool)
    ensures Encoded(v, negative) == SizeOf(v) * 0x100_0000 + MantissaOf(v) + if negative && MantissaOf(v) != 0 then 0x80_0000 else 0
  {
  }

  /** The compact form; its two asserts hold. */
  method GetCompact(x: BaseUint, negative: bool) returns (c: u32)
    requires x.Valid()
    ensures c == Encoded(x.Val(), negative)
  {
    hide Pow2, Value, Encoded, IsBitLength, BitLength, BitOr, SizeOf, MantissaOf, TestBit;
    var v := x.Val();
    var bits := x.Bits();
    BitLengthIs(v, bits);
    x.ValBound();
    EncodedParts(v, negative);
    ReadsWhole(v);
    RoomForSign(v);
    hide Size, Word;
    var nSize := (bits + 7) / 8;
    assert nSize == PlainSize(v);
    hide PlainSize, PlainMantissa;
    var m: nat;
    if nSize <= 3 {
      m := x.GetLow64();
      m := m * Pow2(8 * (3 - nSize));
    } else {
      var bn := new BaseUint.Copy(x);
      bn.ShiftRight(8 * (nSize - 3));
      m := bn.GetLow64();
    }
    if TestBit(m, 23) {
      m := m / 256;
      nSize := nSize + 1;
    }
    EncodedIs(v, negative);
    SizeLimit(v);
    assert m < 0x80_0000;
    assert nSize < 256;
    Joined(m, nSize);
    c := Or32(m, nSize * 0x100_0000);
    if negative && m % 0x80_0000 != 0 {
      c := Or32(c, 0x80_0000);
    }
  }

  // ----- examples -----

  lemma DecodesAs(n: nat, m: nat, sign: bool, scale: nat, value: nat)
    requires n < 256 && m < 0x80_0000 && value < 0x1_0000_0000 && scale > 0 && scale == Pow2(if n <= 3 then 8 * (3 - n) else 8 * (n - 3))
    requires if n <= 3 then value == m / scale else value == m * scale
    ensures var c := n * 0x100_0000 + m + if sign then 0x80_0000 else 0;
            c < BASE && Decoded(c) == value && (n <= 32 ==> !Overflows(c))
    ensures var c := n * 0x100_0000 + m + if sign then 0x80_0000 else 0;
            c < BASE && (Negative(c) <==> sign && (if n <= 3 then value else m) != 0)
  {
    WordFields(n, m, sign);
    hide Pow2, TestBit;
    Fits(value);
  }

  lemma Bytes()
    ensures Pow2(0) == 1 && Pow2(8) == 0x100 && Pow2(16) == 0x1_0000 && Pow2(24) == 0x100_0000
  {
    Pow2Small();
  }

  // The size moves the mantissa by bytes: to the right below three, to the left above.
  lemma DecodedExamples()
    ensures Decoded(0x0012_3456) == 0 && Decoded(0x0112_3456) == 0x12 && Decoded(0x0212_3456) == 0x1234
    ensures Decoded(0x0312_3456) == 0x12_3456 && Decoded(0x0412_3456) == 0x1234_5600 && Decoded(0x0500_9234) == 0x9234_0000
    ensures Decoded(0x01fe_dcba) == 0x7e && Negative(0x01fe_dcba) && !Negative(0x0180_3456) && !Negative(0x0112_3456)
  {
    hide *;
    Bytes();
    DecodesAs(0, 0x12_3456, false, 0x100_0000, 0);
    DecodesAs(1, 0x12_3456, false, 0x1_0000, 0x12);
    DecodesAs(2, 0x12_3456, false, 0x100, 0x1234);
    DecodesAs(3, 0x12_3456, false, 1, 0x12_3456);
    DecodesAs(4, 0x12_3456, false, 0x100, 0x1234_5600);
    DecodesAs(5, 0x00_9234, false, 0x1_0000, 0x9234_0000);
    DecodesAs(1, 0x7e_dcba, true, 0x1_0000, 0x7e);
    DecodesAs(1, 0x00_3456, true, 0x1_0000, 0);
  }
}
