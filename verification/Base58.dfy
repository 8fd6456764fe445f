// Base-58 strings on digit values: bytes to digits and back, with buffers that
// are allocated before the number of digits is known.
module Base58 {
  import opened Nonlinear
  import opened Radix

  // ----- what the conversions compute -----

  /** One zero digit for each leading zero byte, then the digits of the number. */
  function Encoded(bytes: seq<nat>): seq<nat>
  {
    Zeros(LeadingZeros(bytes)) + Digits(Num(bytes, 256), 58)
  }

  function Decoded(digits: seq<nat>): seq<nat>
  {
    Zeros(LeadingZeros(digits)) + Digits(Num(digits, 58), 256)
  }

  /** Converting to another base and back. */
  lemma ConvertBack(s: seq<nat>, base: nat, other: nat)
    requires base >= 2 && other >= 2 && AreDigits(s, base)
    ensures var t := Zeros(LeadingZeros(s)) + Digits(Num(s, base), other);
            && AreDigits(t, other)
            && Zeros(LeadingZeros(t)) + Digits(Num(t, other), base) == s
  {
    var z, v := LeadingZeros(s), Num(s, base);
    var d := Digits(v, other);
    var t := Zeros(z) + d;
    NumOfDigits(v, other);
    if v == 0 {
      assert d == [];
    }
    LeadingZerosOf(z, d);
    NumWithoutZeros(t, other);
    assert Num(t, other) == v;
    DigitsAreStripped(s, base);
    LeadingZerosAre(s);
  }

  // Decoding undoes encoding, leading zero bytes included.
  lemma DecodeEncode(bytes: seq<nat>)
    requires AreDigits(bytes, 256)
    ensures AreDigits(Encoded(bytes), 58) && Decoded(Encoded(bytes)) == bytes
  {
    ConvertBack(bytes, 256, 58);
  }

  // Encoding undoes decoding, so no two digit strings mean the same bytes.
  lemma EncodeDecode(digits: seq<nat>)
    requires AreDigits(digits, 58)
    ensures AreDigits(Decoded(digits), 256) && Encoded(Decoded(digits)) == digits
  {
    ConvertBack(digits, 58, 256);
  }

  // ----- the buffers are large enough -----

  lemma PowProduct(a: nat, b: nat, c: nat, d: nat)
    requires 0 <= a <= b && 0 <= c <= d
    ensures 0 <= a * c <= b * d
  {
    MulMonotonic(a, c, d);
    MulMonotonic(d, a, b);
  }

  // Combining two bounds of the form base^n <= other^c.
  lemma FitsTogether(base: nat, other: nat, n: nat, c: nat, n': nat, c': nat)
    requires Pow(base, n) <= Pow(other, c) && Pow(base, n') <= Pow(other, c')
    ensures Pow(base, n + n') <= Pow(other, c + c')
  {
    PowAdd(base, n, n');
    PowAdd(other, c, c');
    PowProduct(Pow(base, n), Pow(other, c), Pow(base, n'), Pow(other, c'));
  }

  lemma EightBytes()
    ensures Pow(256, 8) <= Pow(58, 11)
  {
    assert Pow(256, 4) == 0x1_0000_0000;
    PowAdd(256, 4, 4);
    assert Pow(58, 5) == 656_356_768;
    assert Pow(58, 6) == 38_068_692_544;
    PowAdd(58, 5, 6);
  }

  function BytesFit(r: nat): nat
    requires r < 8
  {
    [0, 2, 3, 5, 6, 7, 9, 10][r]
  }

  lemma FewBytes(r: nat)
    requires r < 8
    ensures Pow(256, r) <= Pow(58, BytesFit(r))
  {
    assert Pow(58, 2) == 3364 && Pow(58, 3) == 195_112;
    assert Pow(58, 5) == 656_356_768;
    PowAdd(58, 5, 1);
    PowAdd(58, 5, 2);
    PowAdd(58, 5, 5);
    PowAdd(58, 7, 2);
    assert Pow(58, 1) == 58;
    assert Pow(256, 1) == 256 && Pow(256, 2) == 0x1_0000 && Pow(256, 3) == 0x100_0000;
    PowAdd(256, 2, 2);
    PowAdd(256, 3, 2);
    PowAdd(256, 3, 3);
    PowAdd(256, 4, 3);
    assert Pow(256, 0) == 1 == Pow(58, 0);
  }

  // n bytes need at most n * 138 / 100 + 1 digits.
  lemma {:induction false} BytesFitDigits(n: nat)
    ensures Pow(256, n) <= Pow(58, n * 138 / 100 + 1)
  {
    hide Pow;
    if n < 8 {
      FewBytes(n);
      PowMonotonic(58, BytesFit(n), n * 138 / 100 + 1);
    } else {
      BytesFitDigits(n - 8);
      EightBytes();
      FitsTogether(256, 58, n - 8, (n - 8) * 138 / 100 + 1, 8, 11);
      PowMonotonic(58, (n - 8) * 138 / 100 + 12, n * 138 / 100 + 1);
    }
  }

  function DigitsFit(r: nat): nat
    requires r < 15
  {
    [0, 1, 2, 3, 3, 4, 5, 6, 6, 7, 8, 9, 9, 10, 11][r]
  }

  /** `n` digits hold no more than `c` bytes. */
  ghost predicate Fits(n: nat, c: nat)
  {
    Pow(58, n) <= Pow(256, c)
  }

  lemma UpToFour(r: nat)
    requires r <= 4
    ensures Fits(r, if r == 4 then 3 else r)
  {
    assert Pow(58, 0) == 1 == Pow(256, 0);
    assert Pow(58, 1) == 58 && Pow(58, 2) == 3364 && Pow(58, 3) == 195_112 && Pow(58, 4) == 11_316_496;
    assert Pow(256, 1) == 256 && Pow(256, 2) == 0x1_0000 && Pow(256, 3) == 0x100_0000;
  }

  lemma FitsMore(n: nat, c: nat, n': nat, c': nat)
    requires Fits(n, c) && Fits(n', c')
    ensures Fits(n + n', c + c')
  {
    FitsTogether(58, 256, n, c, n', c');
  }

  lemma UpToFifteen(r: nat)
    requires r < 15
    ensures Fits(r, DigitsFit(r))
  {
    hide Fits;
    UpToFour(4);
    UpToFour(r % 4);
    if r >= 4 {
      FitsMore(4, 3, r % 4, r % 4);
      FitsMore(4, 3, 4, 3);
      FitsMore(8, 6, r % 4, r % 4);
      FitsMore(8, 6, 4, 3);
      FitsMore(12, 9, r % 4, r % 4);
    }
  }

  lemma FewDigits(r: nat)
    requires r < 15
    ensures Pow(58, r) <= Pow(256, DigitsFit(r))
  {
    UpToFifteen(r);
    assert Fits(r, DigitsFit(r));
    hide Pow;
  }

  lemma FifteenDigits()
    ensures Pow(58, 15) == 282761256881297307761016832 && Pow(58, 11) == 24986644000165537792
    ensures Pow(58, 15) <= Pow(256, 11)
  {
    assert Pow(58, 5) == 656_356_768;
    assert Pow(256, 4) == 0x1_0000_0000 && Pow(256, 3) == 0x100_0000;
    assert Pow(58, 1) == 58;
    hide Pow;
    PowAdd(58, 5, 5);
    PowAdd(58, 10, 1);
    PowAdd(58, 10, 5);
    PowAdd(256, 4, 4);
    PowAdd(256, 8, 3);
  }

  // 58^71 is just below 256^52.
  lemma SeventyOneDigits()
    ensures Pow(58, 71) <= Pow(256, 52)
  {
    FifteenDigits();
    assert Pow(256, 4) == 0x1_0000_0000;
    hide Pow;
    PowAdd(58, 15, 15);
    assert Pow(58, 30) == 79953928393091004080532279173738402825689466587316224;
    PowAdd(58, 30, 30);
    assert Pow(58, 60) == 6392630665487523829925705590507004456832030712891733088851577912861189652777515686114891080333114973618176;
    PowAdd(58, 60, 11);
    PowAdd(256, 4, 4);
    PowAdd(256, 8, 8);
    PowAdd(256, 16, 16);
    PowAdd(256, 32, 16);
    PowAdd(256, 48, 4);
    assert Pow(256, 52) == 169230328010303641331690318856389386196071598838855992136870091590247882556495704531248437872567112920983350278405979725889536;
  }

  lemma {:induction false} Fifteens(a: nat)
    ensures Pow(58, 15 * a) <= Pow(256, 11 * a)
  {
    if a == 0 {
      assert Pow(58, 0) == 1 == Pow(256, 0);
    } else {
      Fifteens(a - 1);
      FifteenDigits();
      hide Pow;
      FitsTogether(58, 256, 15 * (a - 1), 11 * (a - 1), 15, 11);
    }
  }

  lemma FewBytesSuffice(a: nat, b: nat)
    requires b < 15 && 15 * a + b < 71
    ensures 11 * a + DigitsFit(b) <= (15 * a + b) * 733 / 1000 + 1
  {
    assert a == 0 || a == 1 || a == 2 || a == 3 || a == 4;
  }

  // m digits need at most m * 733 / 1000 + 1 bytes.
  lemma {:induction false} DigitsFitBytes(m: nat)
    ensures Pow(58, m) <= Pow(256, m * 733 / 1000 + 1)
  {
    hide Pow;
    if m < 71 {
      var a, b := m / 15, m % 15;
      Fifteens(a);
      FewDigits(b);
      FitsTogether(58, 256, 15 * a, 11 * a, b, DigitsFit(b));
      FewBytesSuffice(a, b);
      PowMonotonic(256, 11 * a + DigitsFit(b), m * 733 / 1000 + 1);
    } else {
      DigitsFitBytes(m - 71);
      SeventyOneDigits();
      FitsTogether(58, 256, m - 71, (m - 71) * 733 / 1000 + 1, 71, 52);
      PowMonotonic(256, (m - 71) * 733 / 1000 + 53, m * 733 / 1000 + 1);
    }
  }

  // ----- the conversions in place -----

  lemma NoDigits(x: seq<nat>, base: nat)
    ensures Num(x[|x|..], base) == 0 && forall c: nat :: Times(c, Pow(base, 0)) == c
  {
  }

  lemma StepAlgebra(p: nat, base: nat, factor: nat, carry: nat, d: nat, vx: nat, vy: nat, add: nat)
    requires base >= 2 && carry >= factor * d && vy + Times(carry - factor * d, p) == vx * factor + add
    ensures 0 <= carry / base && 0 <= carry % base < base
    ensures carry % base * p + vy + Times(carry / base, base * p) == (d * p + vx) * factor + add
  {
    var q, r := carry / base, carry % base;
    assert carry == q * base + r;
    Distribute(p, carry - factor * d, factor * d);
    Distribute(p, q * base, r);
    assert q * (base * p) == q * base * p;
    Distribute(factor, d * p, vx);
    assert d * p * factor == factor * d * p;
  }

  lemma MultiplyStep(x: seq<nat>, y: seq<nat>, j: nat, base: nat, factor: nat, add: nat, carry: nat)
    requires base >= 2 && |x| == |y| && j < |x| && carry >= factor * x[j]
    requires Num(y[j + 1..], base) + Times(carry - factor * x[j], Pow(base, |x| - j - 1)) == Num(x[j + 1..], base) * factor + add
    ensures 0 <= carry / base && 0 <= carry % base < base
    ensures Num([carry % base] + y[j + 1..], base) + Times(carry / base, Pow(base, |x| - j)) == Num(x[j..], base) * factor + add
  {
    var p := Pow(base, |x| - j - 1);
    assert Pow(base, |x| - j) == base * p;
    hide Num, Pow;
    NumFront(carry % base, y[j + 1..], base);
    NumFront(x[j], x[j + 1..], base);
    assert x[j..] == [x[j]] + x[j + 1..];
    StepAlgebra(p, base, factor, carry, x[j], Num(x[j + 1..], base), Num(y[j + 1..], base), add);
  }

  /** Multiplies the digits in a buffer and adds; what does not fit is returned. */
  method MultiplyAdd(a: array<nat>, base: nat, factor: nat, add: nat) returns (carry: nat)
    requires base >= 2 && AreDigits(a[..], base)
    modifies a
    ensures AreDigits(a[..], base)
    ensures Num(a[..], base) + carry * Pow(base, a.Length) == Num(old(a[..]), base) * factor + add
  {
    hide Num, Pow;
    ghost var x := a[..];
    carry := add;
    var j := a.Length;
    NoDigits(x, base);
    while j > 0
      invariant 0 <= j <= a.Length && a[..j] == x[..j] && AreDigits(a[..], base)
      invariant Num(a[j..], base) + Times(carry, Pow(base, a.Length - j)) == Num(x[j..], base) * factor + add
    {
      j := j - 1;
      carry := carry + factor * a[j];
      MultiplyStep(x, a[..], j, base, factor, add, carry);
      ghost var rest := a[j + 1..];
      a[j] := carry % base;
      carry := carry / base;
      assert a[j..] == [a[j]] + rest;
    }
    assert a[0..] == a[..] && x[0..] == x;
  }

  lemma NoCarry(rest: seq<nat>, base: nat, i: nat, other: nat, size: nat, v: nat, carry: nat)
    requires base >= 2 && AreDigits(rest, base) && Pow(base, |rest|) <= Pow(other, size) && i <= |rest|
    requires v + carry * Pow(other, size) == Num(rest[..i], base)
    ensures carry == 0
  {
    hide Num, Pow;
    NumBound(rest[..i], base);
    PowMonotonic(base, i, |rest|);
    if carry >= 1 {
      MulMonotonic(Pow(other, size), 1, carry);
    }
  }

  /** Puts the number into the buffer, one digit after the other; nothing is carried out. */
  method Fill(a: array<nat>, rest: seq<nat>, base: nat, other: nat)
    requires base >= 2 && other >= 2 && AreDigits(rest, base) && Pow(base, |rest|) <= Pow(other, a.Length)
    requires AreDigits(a[..], other) && Num(a[..], other) == 0
    modifies a
    ensures AreDigits(a[..], other) && Num(a[..], other) == Num(rest, base)
  {
    hide Pow;
    assert rest[..0] == [];
    for i := 0 to |rest|
      invariant AreDigits(a[..], other) && Num(a[..], other) == Num(rest[..i], base)
    {
      assert rest[..i + 1] == rest[..i] + [rest[i]];
      NumMore(rest[..i], rest[i], base);
      var carry := MultiplyAdd(a, other, base, rest[i]);
      NoCarry(rest, base, i + 1, other, a.Length, Num(a[..], other), carry);
      assert carry == 0;
    }
    assert rest[..|rest|] == rest;
  }

  // Where the leading zeros end.
  lemma ZerosStep(s: seq<nat>, it: nat)
    requires it <= LeadingZeros(s)
    ensures it < |s| && s[it] == 0 ==> it < LeadingZeros(s)
    ensures it == |s| || s[it] != 0 ==> it == LeadingZeros(s)
  {
    LeadingZerosAre(s);
    var z := LeadingZeros(s);
    if it < z {
      assert s[it] == Zeros(z)[it];
    } else if z < |s| {
      assert s[z] == s[z..][0];
    }
  }

  method WithoutZeros(a: array<nat>) returns (r: seq<nat>)
    ensures r == a[..][LeadingZeros(a[..])..]
  {
    var it := 0;
    while it < a.Length && a[it] == 0
      invariant 0 <= it <= LeadingZeros(a[..])
    {
      ZerosStep(a[..], it);
      it := it + 1;
    }
    ZerosStep(a[..], it);
    r := a[it..];
  }

  lemma {:induction false} ZerosAreZero(s: seq<nat>, base: nat)
    requires forall i :: 0 <= i < |s| ==> s[i] == 0
    ensures Num(s, base) == 0
  {
    if s != [] {
      ZerosAreZero(s[..|s| - 1], base);
    }
  }

  lemma AllZeros(s: seq<nat>, base: nat)
    requires base >= 1 && forall i :: 0 <= i < |s| ==> s[i] == 0
    ensures AreDigits(s, base) && Num(s, base) == 0
  {
    ZerosAreZero(s, base);
  }

  /** The digits of a number in another base, by way of a buffer that is large enough. */
  method Convert(rest: seq<nat>, base: nat, other: nat, size: nat) returns (r: seq<nat>)
    requires base >= 2 && other >= 2 && AreDigits(rest, base) && Pow(base, |rest|) <= Pow(other, size)
    ensures r == Digits(Num(rest, base), other)
  {
    var a := new nat[size](i => 0);
    AllZeros(a[..], other);
    Fill(a, rest, base, other);
    DigitsAreStripped(a[..], other);
    r := WithoutZeros(a);
  }

  method CountZeros(s: seq<nat>) returns (z: nat)
    ensures z == LeadingZeros(s)
  {
    z := 0;
    while z < |s| && s[z] == 0
      invariant 0 <= z <= LeadingZeros(s)
    {
      ZerosStep(s, z);
      z := z + 1;
    }
    ZerosStep(s, z);
  }

  /** Bytes to digits. */
  method EncodeBase58(bytes: seq<nat>) returns (digits: seq<nat>)
    requires AreDigits(bytes, 256)
    ensures digits == Encoded(bytes)
  {
    hide Num, Pow, Digits;
    var zeroes := CountZeros(bytes);
    var rest := bytes[zeroes..];
    BytesFitDigits(|rest|);
    NumWithoutZeros(bytes, 256);
    digits := Convert(rest, 256, 58, |rest| * 138 / 100 + 1);
    digits := Zeros(zeroes) + digits;
  }

  /** Digits to bytes, for a string without blanks. */
  method DecodeBase58(digits: seq<nat>) returns (bytes: seq<nat>)
    requires AreDigits(digits, 58)
    ensures bytes == Decoded(digits)
  {
    hide Num, Pow, Digits;
    var zeroes := CountZeros(digits);
    var rest := digits[zeroes..];
    DigitsFitBytes(|rest|);
    NumWithoutZeros(digits, 58);
    bytes := Convert(rest, 58, 256, |rest| * 733 / 1000 + 1);
    bytes := Zeros(zeroes) + bytes;
  }
}
