// Numbers as sequences of 32-bit limbs, lowest first, and the word operations
// the limb loops are made of.
module Limbs {
  import opened Nonlinear

  const BASE := 0x1_0000_0000
  const WORD64 := 0x1_0000_0000_0000_0000

  type u32 = x: int | 0 <= x < BASE

  // ----- powers of two -----

  lemma {:induction false} Pow2Add(a: nat, b: nat)
    ensures Pow2(a + b) == Pow2(a) * Pow2(b)
  {
    if a > 0 {
      Pow2Add(a - 1, b);
      assert a + b - 1 == (a - 1) + b;
      MulAssoc(2, Pow2(a - 1), Pow2(b));
    }
  }

  lemma Pow2Small()
    ensures Pow2(8) == 0x100 && Pow2(15) == 0x8000 && Pow2(16) == 0x1_0000 && Pow2(23) == 0x80_0000 && Pow2(24) == 0x100_0000
    ensures Pow2(32) == BASE
  {
    assert Pow2(1) == 2 && Pow2(7) == 128;
    assert Pow2(8) == 0x100;
    Pow2Add(8, 8);
    Pow2Add(8, 7);
    Pow2Add(16, 8);
    Pow2Add(16, 7);
    Pow2Add(16, 16);
  }

  lemma Pow2Word64()
    ensures Pow2(64) == WORD64
  {
    Pow2Small();
    Pow2Add(32, 32);
  }

  lemma Pow2Limb(i: nat)
    ensures Pow2(32 * (i + 1)) == BASE * Pow2(32 * i)
  {
    Pow2Small();
    Pow2Add(32, 32 * i);
  }

  lemma {:induction false} Pow2Monotonic(a: nat, b: nat)
    requires a <= b
    ensures Pow2(a) <= Pow2(b)
  {
    if a < b {
      Pow2Monotonic(a, b - 1);
    }
  }

  // ----- the number behind the limbs -----

  function Value(s: seq<u32>): nat
  {
    if s == [] then 0
    else
      MulMonotonic(Pow2(32 * (|s| - 1)), 0, s[|s| - 1]);
      Value(s[..|s| - 1]) + s[|s| - 1] * Pow2(32 * (|s| - 1))
  }

  lemma ValueStep(s: seq<u32>, i: nat)
    requires i < |s|
    ensures Value(s[..i + 1]) == Value(s[..i]) + s[i] * Pow2(32 * i)
  {
    assert s[..i + 1][..i] == s[..i];
  }

  lemma TopLimb(p: nat, x: u32)
    ensures x * p + p <= BASE * p
  {
    MulMonotonic(p, x + 1, BASE);
    Distribute(p, x, 1);
  }

  lemma {:induction false} ValueBound(s: seq<u32>)
    ensures Value(s) < Pow2(32 * |s|)
  {
    if s != [] {
      var n := |s| - 1;
      ValueBound(s[..n]);
      Pow2Limb(n);
      TopLimb(Pow2(32 * n), s[n]);
    }
  }

  lemma {:induction false} ValueZero(s: seq<u32>)
    requires forall i :: 0 <= i < |s| ==> s[i] == 0
    ensures Value(s) == 0
  {
    if s != [] {
      ValueZero(s[..|s| - 1]);
    }
  }

  // Limbs above `n` do not count when they are zero.
  lemma {:induction false} ValueTop(s: seq<u32>, n: nat)
    requires n <= |s| && forall i :: n <= i < |s| ==> s[i] == 0
    ensures Value(s) == Value(s[..n])
  {
    if n < |s| {
      ValueTop(s[..|s| - 1], n);
      assert s[..|s| - 1][..n] == s[..n];
    } else {
      assert s[..n] == s;
    }
  }

  lemma SplitAlgebra(p: int, q: int, low: int, mid: int, x: int)
    ensures low + p * mid + x * (p * q) == low + p * (mid + x * q)
  {
    Distribute(p, mid, x * q);
    assert p * (x * q) == x * (p * q);
  }

  lemma {:induction false} ValueSplit(s: seq<u32>, k: nat)
    requires k <= |s|
    ensures Value(s) == Value(s[..k]) + Pow2(32 * k) * Value(s[k..])
  {
    if k == |s| {
      assert s[..k] == s;
    } else {
      var n := |s| - 1;
      ValueSplit(s[..n], k);
      assert s[..n][..k] == s[..k];
      assert s[..n][k..] == s[k..][..n - k];
      assert s[k..][n - k] == s[n];
      Pow2Add(32 * k, 32 * (n - k));
      hide Pow2;
      SplitAlgebra(Pow2(32 * k), Pow2(32 * (n - k)), Value(s[..k]), Value(s[k..][..n - k]), s[n]);
    }
  }

  lemma OtherFactor(low: int, x: int, y: int, p: int)
    ensures low + y * p == low + x * p + (y - x) * p
  {
    Distribute(p, y - x, x);
  }

  lemma {:induction false} ValueUpdate(s: seq<u32>, i: nat, v: u32)
    requires i < |s|
    ensures Value(s[i := v]) == Value(s) + (v - s[i]) * Pow2(32 * i)
  {
    var n := |s| - 1;
    if i == n {
      assert s[i := v][..n] == s[..n];
      OtherFactor(Value(s[..n]), s[n], v, Pow2(32 * n));
    } else {
      ValueUpdate(s[..n], i, v);
      assert s[i := v][..n] == s[..n][i := v];
    }
  }

  // Writing the next limb.
  lemma ValueWrite(s: seq<u32>, i: nat, v: u32)
    requires i < |s|
    ensures Value(s[i := v][..i + 1]) == Value(s[..i]) + v * Pow2(32 * i)
  {
    assert s[i := v][..i] == s[..i];
    ValueStep(s[i := v], i);
  }

  lemma LimbLess(p: nat, a: nat, x: int, b: nat, y: int)
    requires a < p && x < y
    ensures a + x * p < b + y * p
  {
    MulMonotonic(p, x + 1, y);
    Distribute(p, x, 1);
  }

  // The order of the numbers is decided by the highest limb that differs.
  lemma ValueLess(s: seq<u32>, t: seq<u32>, i: nat)
    requires |s| == |t| && i < |s| && s[i] < t[i]
    requires forall k :: i < k < |s| ==> s[k] == t[k]
    ensures Value(s) < Value(t)
  {
    ValueSplit(s, i + 1);
    ValueSplit(t, i + 1);
    assert s[i + 1..] == t[i + 1..];
    ValueStep(s, i);
    ValueStep(t, i);
    ValueBound(s[..i]);
    LimbLess(Pow2(32 * i), Value(s[..i]), s[i], Value(t[..i]), t[i]);
  }

  // ----- bits of a word -----

  /** Bitwise or. */
  function BitOr(x: nat, y: nat): nat
  {
    if x == 0 && y == 0 then 0
    else 2 * BitOr(x / 2, y / 2) + if x % 2 == 1 || y % 2 == 1 then 1 else 0
  }

  lemma {:induction false} BitOrZero(x: nat)
    ensures BitOr(0, x) == x && BitOr(x, 0) == x
  {
    if x > 0 {
      BitOrZero(x / 2);
    }
  }

  lemma HalfMultiple(x: nat, p: nat)
    requires p >= 1 && x % (2 * p) == 0
    ensures x % 2 == 0 && x / 2 % p == 0
  {
    var q := x / (2 * p);
    assert x == 2 * p * q;
    assert x == 2 * (p * q);
    assert x / 2 == p * q;
    DivModUnique(x / 2, p, q, 0);
  }

  // Words without common bits are added.
  lemma {:induction false} BitOrAdds(x: nat, y: nat, k: nat)
    requires x % Pow2(k) == 0 && y < Pow2(k)
    ensures BitOr(x, y) == x + y && BitOr(y, x) == x + y
    decreases k
  {
    if k == 0 {
      BitOrZero(x);
    } else {
      HalfMultiple(x, Pow2(k - 1));
      if x != 0 || y != 0 {
        BitOrAdds(x / 2, y / 2, k - 1);
      }
    }
  }
}
