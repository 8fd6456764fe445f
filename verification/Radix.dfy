// Numbers written as big-endian digits in some base.
module Radix {
  import opened Nonlinear

  function Pow(b: nat, n: nat): nat
  {
    if n == 0 then 1 else b * Pow(b, n - 1)
  }

  lemma {:induction false} PowPositive(b: nat, n: nat)
    requires b >= 1
    ensures Pow(b, n) >= 1
  {
    if n > 0 {
      PowPositive(b, n - 1);
      MulMonotonic(b, 1, Pow(b, n - 1));
    }
  }

  lemma {:induction false} PowAdd(b: nat, m: nat, n: nat)
    ensures Pow(b, m + n) == Pow(b, m) * Pow(b, n)
  {
    if m > 0 {
      PowAdd(b, m - 1, n);
      assert m + n - 1 == m - 1 + n;
      MulAssoc(b, Pow(b, m - 1), Pow(b, n));
    }
  }

  lemma {:induction false} PowMonotonic(b: nat, m: nat, n: nat)
    requires b >= 1 && m <= n
    ensures Pow(b, m) <= Pow(b, n)
  {
    if m < n {
      PowMonotonic(b, m, n - 1);
      PowPositive(b, n - 1);
      MulMonotonic(Pow(b, n - 1), 1, b);
    }
  }

  ghost predicate AreDigits(s: seq<nat>, base: nat)
  {
    forall i :: 0 <= i < |s| ==> s[i] < base
  }

  function Num(s: seq<nat>, base: nat): nat
  {
    if s == [] then 0 else Num(s[..|s| - 1], base) * base + s[|s| - 1]
  }

  lemma QuotientSmaller(v: nat, base: nat)
    requires v > 0 && base >= 2
    ensures 0 <= v / base < v && 0 <= v % base < base && v == v / base * base + v % base
  {
    MulMonotonic(v / base, 2, base);
  }

  /** The shortest digits of a number; zero has none. */
  function Digits(v: nat, base: nat): (r: seq<nat>)
    requires base >= 2
    decreases v
  {
    if v == 0 then []
    else
      QuotientSmaller(v, base);
      Digits(v / base, base) + [v % base]
  }

  lemma NumMore(s: seq<nat>, d: nat, base: nat)
    ensures Num(s + [d], base) == Num(s, base) * base + d
  {
    assert (s + [d])[..|s|] == s;
  }

  lemma {:induction false} NumOfDigits(v: nat, base: nat)
    requires base >= 2
    ensures Num(Digits(v, base), base) == v
    ensures AreDigits(Digits(v, base), base) && (v > 0 ==> Digits(v, base) != [] && Digits(v, base)[0] != 0)
    decreases v
  {
    if v > 0 {
      QuotientSmaller(v, base);
      NumOfDigits(v / base, base);
      NumMore(Digits(v / base, base), v % base, base);
      assert v / base == 0 ==> Digits(v / base, base) == [];
    }
  }

  // Digits without leading zero are the shortest digits of their number.
  lemma {:induction false} DigitsOfNum(s: seq<nat>, base: nat)
    requires base >= 2 && AreDigits(s, base) && (s != [] ==> s[0] != 0)
    ensures Digits(Num(s, base), base) == s && (s != [] ==> Num(s, base) > 0)
  {
    if s != [] {
      var k := |s| - 1;
      DigitsOfNum(s[..k], base);
      assert s == s[..k] + [s[k]];
      var q := Num(s[..k], base);
      if k > 0 {
        assert s[..k][0] == s[0];
        MulMonotonic(base, 1, q);
      }
      DivModUnique(Num(s, base), base, q, s[k]);
    }
  }

  // A digit in front.
  lemma {:induction false} NumFront(d: nat, s: seq<nat>, base: nat)
    ensures Num([d] + s, base) == d * Pow(base, |s|) + Num(s, base)
  {
    if s == [] {
      assert [d] + s == [d];
      assert Num([d][..0], base) == 0;
    } else {
      var k := |s| - 1;
      NumFront(d, s[..k], base);
      assert ([d] + s)[..k + 1] == [d] + s[..k];
      Distribute(base, d * Pow(base, k), Num(s[..k], base));
      MulAssoc(d, Pow(base, k), base);
    }
  }

  lemma NextDigitFits(v: nat, d: nat, base: nat, p: nat)
    requires v < p && d < base
    ensures v * base + d < base * p
  {
    MulMonotonic(base, v + 1, p);
    Distribute(base, v, 1);
  }

  lemma {:induction false} NumBound(s: seq<nat>, base: nat)
    requires AreDigits(s, base) && base >= 1
    ensures Num(s, base) < Pow(base, |s|)
  {
    if s != [] {
      var k := |s| - 1;
      NumBound(s[..k], base);
      NextDigitFits(Num(s[..k], base), s[k], base, Pow(base, k));
    }
  }

  // ----- leading zeros -----

  function Zeros(n: nat): seq<nat>
  {
    seq(n, i => 0)
  }

  function LeadingZeros(s: seq<nat>): (z: nat)
    ensures z <= |s|
  {
    if s != [] && s[0] == 0 then 1 + LeadingZeros(s[1..]) else 0
  }

  lemma {:induction false} LeadingZerosAre(s: seq<nat>)
    ensures s == Zeros(LeadingZeros(s)) + s[LeadingZeros(s)..]
    ensures s[LeadingZeros(s)..] != [] ==> s[LeadingZeros(s)..][0] != 0
  {
    if s != [] && s[0] == 0 {
      LeadingZerosAre(s[1..]);
      var z := LeadingZeros(s[1..]);
      assert s[1..][z..] == s[1 + z..];
      assert s == [0] + s[1..];
      assert Zeros(1 + z) == [0] + Zeros(z);
    } else {
      assert s[0..] == s && Zeros(0) == [];
    }
  }

  lemma {:induction false} LeadingZerosOf(z: nat, s: seq<nat>)
    requires s != [] ==> s[0] != 0
    ensures LeadingZeros(Zeros(z) + s) == z && (Zeros(z) + s)[z..] == s
  {
    if z > 0 {
      LeadingZerosOf(z - 1, s);
      assert (Zeros(z) + s)[1..] == Zeros(z - 1) + s;
      assert (Zeros(z) + s)[0] == 0;
    } else {
      assert Zeros(0) + s == s;
    }
  }

  lemma {:induction false} NumWithoutZeros(s: seq<nat>, base: nat)
    ensures Num(s, base) == Num(s[LeadingZeros(s)..], base)
  {
    if s != [] && s[0] == 0 {
      NumWithoutZeros(s[1..], base);
      var z := LeadingZeros(s[1..]);
      assert s[1..][z..] == s[1 + z..];
      NumFront(0, s[1..], base);
      assert [0] + s[1..] == s;
    } else {
      assert s[0..] == s;
    }
  }

  // The digits of a number are any digits of it without their leading zeros.
  lemma DigitsAreStripped(s: seq<nat>, base: nat)
    requires base >= 2 && AreDigits(s, base)
    ensures Digits(Num(s, base), base) == s[LeadingZeros(s)..]
  {
    LeadingZerosAre(s);
    NumWithoutZeros(s, base);
    DigitsOfNum(s[LeadingZeros(s)..], base);
  }
}
