// What shifting limb by limb does to the number behind the limbs.
module LimbShifts {
  import opened Nonlinear
  import opened Limbs

  const WIDTH := 8
  const MODULUS := Pow2(256)

  // ----- shifts of one word -----

  lemma {:induction false} BitOrBound(x: nat, y: nat, k: nat)
    requires x < Pow2(k) && y < Pow2(k)
    ensures BitOr(x, y) < Pow2(k)
    decreases k
  {
    if k > 0 && (x != 0 || y != 0) {
      BitOrBound(x / 2, y / 2, k - 1);
    }
  }

  function Or32(x: u32, y: u32): u32
  {
    Pow2Small();
    BitOrBound(x, y, 32);
    BitOr(x, y)
  }

  function Shl32(x: u32, s: nat): u32
  {
    x * Pow2(s) % BASE
  }

  lemma QuotientBound(x: nat, d: nat)
    requires d >= 1
    ensures 0 <= x / d <= x
  {
    MulMonotonic(x / d, 1, d);
  }

  function Shr32(x: u32, s: nat): (r: u32)
  {
    QuotientBound(x, Pow2(s));
    x / Pow2(s)
  }

  lemma Pow2Times(a: nat, b: nat, c: nat)
    requires c == a + b
    ensures Pow2(c) == Pow2(a) * Pow2(b) == Pow2(b) * Pow2(a)
  {
    Pow2Add(a, b);
  }

  // A word times `d` in base p*d: the low word holds the low bits, the rest is carried.
  lemma WordParts(x: u32, p: nat, d: nat)
    requires p > 0 && d > 0 && p * d == BASE
    ensures x * d == x * d % BASE + BASE * (x / p)
    ensures x * d % BASE == d * (x % p)
    ensures x == x / p * p + x % p
  {
    var q, r := x / p, x % p;
    assert x == p * q + r;
    Distribute(d, p * q, r);
    assert d * (p * q) == BASE * q;
    MulMonotonic(d, r + 1, p);
    Distribute(d, r, 1);
    DivModUnique(x * d, BASE, q, d * r);
  }

  lemma WordBounds(x: u32, p: nat, d: nat)
    requires p > 0 && d > 0 && p * d == BASE
    ensures d * (x % p) % d == 0 && x / p < d && d * (x % p) * p == x % p * BASE
  {
    DivModUnique(d * (x % p), d, x % p, 0);
    if x / p >= d {
      MulMonotonic(p, d, x / p);
    }
    assert d * (x % p) * p == x % p * (p * d);
  }

  // A word shifted left is its low part, and its high part one limb up.
  lemma ShlParts(x: u32, s: nat)
    requires s < 32
    ensures x * Pow2(s) == Shl32(x, s) + BASE * Shr32(x, 32 - s)
    ensures Shl32(x, s) % Pow2(s) == 0 && Shr32(x, 32 - s) < Pow2(s)
  {
    hide Pow2;
    Pow2Small();
    Pow2Times(32 - s, s, 32);
    WordParts(x, Pow2(32 - s), Pow2(s));
    WordBounds(x, Pow2(32 - s), Pow2(s));
  }

  // The bits that a right shift moves to the limb below.
  lemma ShrParts(x: u32, s: nat)
    requires s < 32
    ensures Shl32(x, 32 - s) * Pow2(s) == x % Pow2(s) * BASE
    ensures Shl32(x, 32 - s) % Pow2(32 - s) == 0 && Shr32(x, s) < Pow2(32 - s)
    ensures x == Shr32(x, s) * Pow2(s) + x % Pow2(s)
  {
    hide Pow2;
    Pow2Small();
    Pow2Times(s, 32 - s, 32);
    WordParts(x, Pow2(s), Pow2(32 - s));
    WordBounds(x, Pow2(s), Pow2(32 - s));
  }

  // ----- left shift -----

  /** Limb `j` after the first `i` limbs of `a` were shifted by `k` limbs and `s` bits. */
  function ShlLimb(a: seq<u32>, k: nat, s: nat, i: nat, j: nat): int
    requires i <= |a| && s < 32
  {
    (if k <= j < k + i then Shl32(a[j - k], s) else 0) + (if k + 1 <= j < k + 1 + i then Shr32(a[j - k - 1], 32 - s) else 0)
  }

  ghost predicate IsShl(a: seq<u32>, k: nat, s: nat, i: nat, r: seq<u32>)
    requires i <= |a| && s < 32
  {
    |r| == WIDTH == |a| && forall j :: 0 <= j < WIDTH ==> r[j] == ShlLimb(a, k, s, i, j)
  }

  // What is carried out of the limbs below `n`.
  function ShlCarry(a: seq<u32>, k: nat, s: nat, n: nat): nat
    requires n <= |a| + k && s < 32
  {
    if n >= k + 1 then Shr32(a[n - k - 1], 32 - s) else 0
  }

  // vr + c*p == va*t, x*2^s == lo + BASE*hi, and q*t == 2^s*p
  lemma ShlAlgebra(vr: int, va: int, x: int, lo: int, hi: int, c: int, z: int, p: int, q: int, t: int)
    requires vr + c * p == va * t && x * z == lo + BASE * hi && q * t == z * p
    ensures vr + (lo + c) * p + hi * (BASE * p) == (va + x * q) * t
  {
    Distribute(p, lo, c);
    Distribute(t, va, x * q);
    assert x * q * t == x * (q * t);
    assert x * (z * p) == x * z * p;
    Distribute(p, lo, BASE * hi);
    assert hi * (BASE * p) == BASE * hi * p;
  }

  lemma ShlPrefixStep(a: seq<u32>, k: nat, s: nat, r: seq<u32>, n: nat)
    requires s < 32 && |a| == WIDTH && IsShl(a, k, s, WIDTH, r) && k <= n < WIDTH
    requires Value(r[..n]) + ShlCarry(a, k, s, n) * Pow2(32 * n) == Value(a[..n - k]) * Pow2(32 * k + s)
    ensures Value(r[..n + 1]) + ShlCarry(a, k, s, n + 1) * Pow2(32 * (n + 1)) == Value(a[..n + 1 - k]) * Pow2(32 * k + s)
  {
    hide Value, Pow2;
    ValueStep(r, n);
    ValueStep(a, n - k);
    ShlParts(a[n - k], s);
    Pow2Limb(n);
    Pow2Times(32 * (n - k), 32 * k + s, 32 * n + s);
    Pow2Times(s, 32 * n, 32 * n + s);
    var lo, hi, c := Shl32(a[n - k], s), Shr32(a[n - k], 32 - s), ShlCarry(a, k, s, n);
    assert r[n] == ShlLimb(a, k, s, WIDTH, n) == lo + c;
    assert ShlCarry(a, k, s, n + 1) == hi;
    hide ShlLimb, IsShl, Shl32, Shr32, ShlCarry;
    assert Value(r[..n + 1]) == Value(r[..n]) + (lo + c) * Pow2(32 * n);
    ShlAlgebra(Value(r[..n]), Value(a[..n - k]), a[n - k], lo, hi, c, Pow2(s), Pow2(32 * n), Pow2(32 * (n - k)), Pow2(32 * k + s));
  }

  lemma {:induction false} ShlPrefix(a: seq<u32>, k: nat, s: nat, r: seq<u32>, n: nat)
    requires s < 32 && |a| == WIDTH && IsShl(a, k, s, WIDTH, r) && n <= WIDTH
    ensures Value(r[..n]) + ShlCarry(a, k, s, n) * Pow2(32 * n)
            == Value(a[..if n >= k then n - k else 0]) * Pow2(32 * k + s)
  {
    if n > 0 {
      ShlPrefix(a, k, s, r, n - 1);
      ValueStep(r, n - 1);
      if n - 1 < k {
        assert r[n - 1] == 0;
        assert a[..0] == [];
      } else {
        ShlPrefixStep(a, k, s, r, n - 1);
      }
    }
  }

  lemma LostBits(p: int, high: int, t: int, m: int, z: int)
    requires p * t == m * z
    ensures p * high * t == m * (z * high)
  {
    assert p * high * t == (p * t) * high;
    assert m * z * high == m * (z * high);
  }

  // Shifting limbs left multiplies, modulo 2^256.
  lemma ShlValue(a: seq<u32>, k: nat, s: nat, r: seq<u32>)
    requires s < 32 && |a| == WIDTH && IsShl(a, k, s, WIDTH, r)
    ensures Value(r) == Value(a) * Pow2(32 * k + s) % MODULUS
  {
    hide Value, Pow2, ShlLimb;
    ShlPrefix(a, k, s, r, WIDTH);
    assert r[..WIDTH] == r;
    ValueBound(r);
    assert 32 * WIDTH == 256;
    if k <= WIDTH {
      ValueSplit(a, WIDTH - k);
      var low, high := Value(a[..WIDTH - k]), Value(a[WIDTH - k..]);
      Pow2Times(32 * (WIDTH - k), 32 * k + s, 256 + s);
      Pow2Times(256, s, 256 + s);
      Distribute(Pow2(32 * k + s), low, Pow2(32 * (WIDTH - k)) * high);
      LostBits(Pow2(32 * (WIDTH - k)), high, Pow2(32 * k + s), MODULUS, Pow2(s));
      Distribute(MODULUS, ShlCarry(a, k, s, WIDTH), Pow2(s) * high);
      DivModUnique(Value(a) * Pow2(32 * k + s), MODULUS, ShlCarry(a, k, s, WIDTH) + Pow2(s) * high, Value(r));
    } else {
      Pow2Times(256, 32 * k + s - 256, 32 * k + s);
      assert Value(a[..0]) == 0 by {
        ValueZero(a[..0]);
      }
      assert Value(r) == 0;
      assert Value(a) * Pow2(32 * k + s) == MODULUS * (Value(a) * Pow2(32 * k + s - 256));
      DivModUnique(Value(a) * Pow2(32 * k + s), MODULUS, Value(a) * Pow2(32 * k + s - 256), 0);
    }
  }

  lemma Pow2Positive(s: nat)
    ensures Pow2(s) >= 1
  {
  }

  lemma NoShift(x: u32)
    ensures Shr32(x, 32) == 0 && Shl32(x, 0) == x && Shr32(x, 0) == x && Shl32(x, 32) == 0
  {
    Pow2Small();
    assert Pow2(0) == 1;
    DivModUnique(x * BASE, BASE, x, 0);
  }

  // One round of the loop that shifts left.
  lemma ShlStep(a: seq<u32>, k: nat, s: nat, i: nat, r: seq<u32>)
    requires s < 32 && i < WIDTH && |a| == WIDTH && IsShl(a, k, s, i, r)
    ensures var r1 := if i + k + 1 < WIDTH && s != 0 then r[i + k + 1 := Or32(r[i + k + 1], Shr32(a[i], 32 - s))] else r;
            var r2 := if i + k < WIDTH then r1[i + k := Or32(r1[i + k], Shl32(a[i], s))] else r1;
            IsShl(a, k, s, i + 1, r2)
  {
    hide Pow2, BitOr;
    ShlParts(a[i], s);
    BitOrZero(Shr32(a[i], 32 - s));
    NoShift(a[i]);
    if i > 0 {
      ShlParts(a[i - 1], s);
      NoShift(a[i - 1]);
    }
    if i + k < WIDTH {
      assert r[i + k] == if i > 0 then Shr32(a[i - 1], 32 - s) else 0;
      Pow2Positive(s);
      BitOrAdds(Shl32(a[i], s), r[i + k], s);
    }
  }

  // ----- right shift -----

  /** Limb `j` after the first `i` limbs of `a` were shifted right by `k` limbs and `s` bits. */
  function ShrLimb(a: seq<u32>, k: nat, s: nat, i: nat, j: nat): int
    requires i <= |a| && s < 32
  {
    (if j + k < i then Shr32(a[j + k], s) else 0) + (if j + k + 1 < i && s != 0 then Shl32(a[j + k + 1], 32 - s) else 0)
  }

  ghost predicate IsShr(a: seq<u32>, k: nat, s: nat, i: nat, r: seq<u32>)
    requires i <= |a| && s < 32
  {
    |r| == WIDTH == |a| && forall j :: 0 <= j < WIDTH ==> r[j] == ShrLimb(a, k, s, i, j)
  }

  // The low bits of a limb.
  function Lost(t: seq<u32>, s: nat, n: nat): nat
  {
    if n < |t| then t[n] % Pow2(s) else 0
  }

  lemma NoBits(x: nat)
    ensures x % Pow2(0) == 0
  {
  }

  lemma ShrLimbParts(a: seq<u32>, k: nat, s: nat, r: seq<u32>, n: nat)
    requires s < 32 && |a| == WIDTH && IsShr(a, k, s, WIDTH, r) && n + k < WIDTH
    ensures var hi, lo: int := Shr32(a[n + k], s), if s != 0 && n + k + 1 < WIDTH then Shl32(a[n + k + 1], 32 - s) else 0;
            && r[n] == hi + lo
            && a[n + k] == hi * Pow2(s) + Lost(a[k..], s, n)
            && lo * Pow2(s) == Lost(a[k..], s, n + 1) * BASE
  {
    hide Pow2, Shr32, Shl32;
    ShrParts(a[n + k], s);
    assert r[n] == ShrLimb(a, k, s, WIDTH, n);
    if n + k + 1 < WIDTH {
      ShrParts(a[n + k + 1], s);
      NoBits(a[n + k + 1]);
    }
  }

  lemma ShrAlgebra(vr: int, vt: int, x: int, low: int, hi: int, lo: int, up: int, z: int, p: int, first: int)
    requires vr * z + first == vt + low * p && x == hi * z + low && lo * z == up * BASE
    ensures (vr + (hi + lo) * p) * z + first == vt + x * p + up * (BASE * p)
  {
    Distribute(z, vr, (hi + lo) * p);
    assert (hi + lo) * p * z == (hi + lo) * z * p;
    Distribute(z, hi, lo);
    Distribute(p, hi * z, lo * z);
    Distribute(p, hi * z, low);
    assert up * BASE * p == up * (BASE * p);
  }

  lemma ShrPrefixStep(a: seq<u32>, k: nat, s: nat, r: seq<u32>, n: nat)
    requires s < 32 && |a| == WIDTH && IsShr(a, k, s, WIDTH, r) && n + k < WIDTH
    requires Value(r[..n]) * Pow2(s) + Lost(a[k..], s, 0) == Value(a[k..][..n]) + Lost(a[k..], s, n) * Pow2(32 * n)
    ensures Value(r[..n + 1]) * Pow2(s) + Lost(a[k..], s, 0)
            == Value(a[k..][..n + 1]) + Lost(a[k..], s, n + 1) * Pow2(32 * (n + 1))
  {
    hide Value, Pow2, Lost, ShrLimb, Shr32, Shl32;
    var t := a[k..];
    var hi, lo: int := Shr32(t[n], s), if s != 0 && n + k + 1 < WIDTH then Shl32(a[n + k + 1], 32 - s) else 0;
    ShrLimbParts(a, k, s, r, n);
    ValueStep(r, n);
    ValueStep(t, n);
    Pow2Limb(n);
    ShrAlgebra(Value(r[..n]), Value(t[..n]), t[n], Lost(t, s, n), hi, lo, Lost(t, s, n + 1), Pow2(s), Pow2(32 * n), Lost(t, s, 0));
  }

  lemma {:induction false} ShrPrefix(a: seq<u32>, k: nat, s: nat, r: seq<u32>, n: nat)
    requires s < 32 && |a| == WIDTH && IsShr(a, k, s, WIDTH, r) && n + k <= WIDTH
    ensures Value(r[..n]) * Pow2(s) + Lost(a[k..], s, 0) == Value(a[k..][..n]) + Lost(a[k..], s, n) * Pow2(32 * n)
  {
    if n > 0 {
      ShrPrefix(a, k, s, r, n - 1);
      ShrPrefixStep(a, k, s, r, n - 1);
    } else {
      assert Pow2(32 * 0) == 1;
    }
  }

  lemma LowBits(x: nat, s: nat)
    ensures 0 <= x % Pow2(s) < Pow2(s)
  {
  }

  lemma ShrTop(a: seq<u32>, k: nat, s: nat, r: seq<u32>)
    requires s < 32 && |a| == WIDTH && k < WIDTH && IsShr(a, k, s, WIDTH, r)
    ensures Value(r) == Value(r[..WIDTH - k])
    ensures Lost(a[k..], s, WIDTH - k) == 0 && Lost(a[k..], s, 0) == a[k] % Pow2(s)
  {
    forall j | WIDTH - k <= j < WIDTH ensures r[j] == 0 {
      assert r[j] == ShrLimb(a, k, s, WIDTH, j);
    }
    ValueTop(r, WIDTH - k);
  }

  // Shifting limbs right divides.
  lemma ShrValue(a: seq<u32>, k: nat, s: nat, r: seq<u32>)
    requires s < 32 && |a| == WIDTH && IsShr(a, k, s, WIDTH, r)
    ensures Value(r) == Value(a) / Pow2(32 * k + s)
  {
    if k < WIDTH {
      hide Value, Pow2, IsShr;
      var n := WIDTH - k;
      ShrPrefix(a, k, s, r, n);
      ShrTop(a, k, s, r);
      assert a[k..][..n] == a[k..];
      ValueSplit(a, k);
      ValueBound(a[..k]);
      Pow2Times(32 * k, s, 32 * k + s);
      LowBits(a[k], s);
      TwoQuotients(Value(a), Pow2(32 * k), Pow2(s), Value(a[..k]), Value(a[k..]), Value(r), Lost(a[k..], s, 0));
    } else {
      ValueZero(r);
      ValueBound(a);
      Pow2Monotonic(256, 32 * k + s);
      DivModUnique(Value(a), Pow2(32 * k + s), 0, Value(a));
    }
  }

  // One round of the loop that shifts right.
  lemma ShrStep(a: seq<u32>, k: nat, s: nat, i: nat, r: seq<u32>)
    requires s < 32 && i < WIDTH && |a| == WIDTH && IsShr(a, k, s, i, r)
    ensures var r1 := if i - k - 1 >= 0 && s != 0 then r[i - k - 1 := Or32(r[i - k - 1], Shl32(a[i], 32 - s))] else r;
            var r2 := if i - k >= 0 then r1[i - k := Or32(r1[i - k], Shr32(a[i], s))] else r1;
            IsShr(a, k, s, i + 1, r2)
  {
    hide Pow2, BitOr;
    BitOrZero(Shr32(a[i], s));
    if i - k - 1 >= 0 && s != 0 {
      ShrParts(a[i], s);
      ShrParts(a[i - 1], s);
      assert r[i - k - 1] == Shr32(a[i - 1], s);
      Pow2Positive(32 - s);
      BitOrAdds(Shl32(a[i], 32 - s), r[i - k - 1], 32 - s);
    }
  }
}
