// Unsigned 256-bit integers as eight 32-bit limbs that are updated in place.
module ArithUint256 {
  import opened Nonlinear
  import opened Limbs
  import opened LimbShifts

  function Truncate(n: int): u32
  {
    n % BASE
  }

  /** Addition of words. */
  function Plus(x: int, y: int): u32
  {
    (x + y) % BASE
  }

  // One step of a limb loop: what goes into the limb and what is carried on.
  lemma CarryStep(p: nat, n: nat)
    ensures Truncate(n) * p + n / BASE * (BASE * p) == n * p
  {
    assert n == Truncate(n) + BASE * (n / BASE);
    Distribute(p, Truncate(n), BASE * (n / BASE));
    assert BASE * (n / BASE) * p == n / BASE * (BASE * p);
  }

  lemma Residue(n: int, q: int, r: int)
    requires n == r + q * MODULUS && 0 <= r < MODULUS
    ensures n % MODULUS == r
  {
    DivModUnique(n, MODULUS, q, r);
  }

  lemma NothingAdded(x: seq<u32>, y: seq<u32>)
    ensures Value(x[..0]) == 0 == Value(y[..0])
  {
  }

  // One limb of the sum; the carry is at most one.
  lemma AddStep(x: seq<u32>, y: seq<u32>, r: seq<u32>, i: nat, carry: nat, n: nat)
    requires |x| == |y| == |r| == WIDTH && i < WIDTH && n == carry + x[i] + y[i] && carry <= 1
    requires Value(r[..i]) + carry * Pow2(32 * i) == Value(x[..i]) + Value(y[..i])
    ensures n / BASE <= 1
    ensures Value(r[i := Truncate(n)][..i + 1]) + n / BASE * Pow2(32 * (i + 1)) == Value(x[..i + 1]) + Value(y[..i + 1])
  {
    hide Value, Pow2, Truncate;
    ValueWrite(r, i, Truncate(n));
    ValueStep(x, i);
    ValueStep(y, i);
    CarryStep(Pow2(32 * i), n);
    Pow2Limb(i);
    var a: int, b: int := x[i], y[i];
    Distribute(Pow2(32 * i), carry, a);
    Distribute(Pow2(32 * i), carry + a, b);
  }

  lemma Added(x: seq<u32>, y: seq<u32>, r: seq<u32>, carry: nat)
    requires |x| == |y| == |r| == WIDTH
    requires Value(r[..WIDTH]) + carry * Pow2(32 * WIDTH) == Value(x[..WIDTH]) + Value(y[..WIDTH])
    ensures Value(r) == (Value(x) + Value(y)) % MODULUS
  {
    hide Value, Pow2;
    assert r[..WIDTH] == r && x[..WIDTH] == x && y[..WIDTH] == y;
    ValueBound(r);
    assert 32 * WIDTH == 256;
    Residue(Value(x) + Value(y), carry, Value(r));
  }

  lemma TwoLimbs(s: seq<u32>, b: nat)
    requires |s| == WIDTH && b < WORD64 && s[0] == Truncate(b) && s[1] == b / BASE
    requires forall i :: 2 <= i < WIDTH ==> s[i] == 0
    ensures Value(s) == b
  {
    ValueTop(s, 2);
    ValueStep(s, 1);
    ValueStep(s, 0);
    Pow2Small();
  }

  lemma UnitLimb()
    ensures Pow2(32 * 0) == 1
  {
  }

  lemma IncrementLimb(s: seq<u32>, i: nat)
    requires |s| == WIDTH && i < WIDTH
    ensures var v := Plus(s[i], 1);
            Value(s[i := v]) + (if v == 0 then Pow2(32 * (i + 1)) else 0) == Value(s) + Pow2(32 * i)
  {
    hide Value, Pow2;
    ValueUpdate(s, i, Plus(s[i], 1));
    Pow2Limb(i);
    Distribute(Pow2(32 * i), BASE, -1);
  }

  lemma DecrementLimb(s: seq<u32>, i: nat)
    requires |s| == WIDTH && i < WIDTH
    ensures var v := Plus(s[i], -1);
            Value(s[i := v]) - (if v == BASE - 1 then Pow2(32 * (i + 1)) else 0) == Value(s) - Pow2(32 * i)
  {
    hide Value, Pow2;
    ValueUpdate(s, i, Plus(s[i], -1));
    Pow2Limb(i);
    Distribute(Pow2(32 * i), BASE, -1);
  }

  lemma ComplementLimb(p: nat, x: int, y: int)
    requires x + y == BASE - 1
    ensures x * p + y * p + p == BASE * p
  {
    Distribute(p, x, y);
    Distribute(p, BASE - 1, 1);
  }

  lemma {:induction false} ComplementValue(s: seq<u32>, t: seq<u32>)
    requires |t| == |s| && forall i :: 0 <= i < |s| ==> t[i] == BASE - 1 - s[i]
    ensures Value(t) == Pow2(32 * |s|) - 1 - Value(s)
  {
    if s != [] {
      var n := |s| - 1;
      ComplementValue(s[..n], t[..n]);
      Pow2Limb(n);
      var x: int, y: int := s[n], t[n];
      ComplementLimb(Pow2(32 * n), x, y);
    }
  }

  lemma SubResidue(a: int, b: int, m: int)
    requires m > 0
    ensures (a + (m - b) % m) % m == (a - b) % m
  {
    var q := (m - b) / m;
    assert (m - b) % m == m - b - m * q;
    var k := (a - b) / m;
    assert a - b == m * k + (a - b) % m;
    Distribute(m, k + 1, -q);
    Distribute(m, k, 1);
    DivModUnique(a + (m - b) % m, m, k + 1 - q, (a - b) % m);
  }

  // ----- bits -----

  ghost predicate IsBitLength(v: nat, r: nat)
  {
    if v == 0 then r == 0 else r >= 1 && Pow2(r - 1) <= v < Pow2(r)
  }

  lemma TopBit(x: nat, k: nat)
    requires x < Pow2(k + 1)
    ensures TestBit(x, k) <==> x >= Pow2(k)
  {
    var p := Pow2(k);
    assert Pow2(k + 1) == 2 * p;
    if x >= p {
      DivModUnique(x, p, 1, x - p);
    } else {
      DivModUnique(x, p, 0, x);
    }
  }

  lemma LowestBit(x: nat)
    requires 0 < x < Pow2(1)
    ensures x == 1 == Pow2(0)
  {
  }

  lemma LimbRange(p: nat, low: nat, x: nat, a: nat, b: nat)
    requires low < p && a <= x < b
    ensures p * a <= low + x * p < p * b
  {
    MulMonotonic(p, a, x);
    MulMonotonic(p, x + 1, b);
    Distribute(p, x, 1);
  }

  lemma LimbBits(s: seq<u32>, pos: nat, k: nat)
    requires |s| == WIDTH && pos < WIDTH && k < 32 && Pow2(k) <= s[pos] < Pow2(k + 1)
    requires forall i :: pos < i < WIDTH ==> s[i] == 0
    ensures IsBitLength(Value(s), 32 * pos + k + 1)
  {
    ValueTop(s, pos + 1);
    ValueStep(s, pos);
    ValueBound(s[..pos]);
    hide Value, Pow2;
    Pow2Times(32 * pos, k, 32 * pos + k);
    Pow2Times(32 * pos, k + 1, 32 * pos + k + 1);
    Pow2Positive(32 * pos + k);
    LimbRange(Pow2(32 * pos), Value(s[..pos]), s[pos], Pow2(k), Pow2(k + 1));
  }

  // ----- shifts -----

  lemma NothingShifted(x: seq<u32>, k: nat, s: nat, r: seq<u32>)
    requires |x| == WIDTH == |r| && s < 32 && forall i :: 0 <= i < WIDTH ==> r[i] == 0
    ensures IsShl(x, k, s, 0, r)
  {
  }

  lemma NothingShiftedRight(x: seq<u32>, k: nat, s: nat, r: seq<u32>)
    requires |x| == WIDTH == |r| && s < 32 && forall i :: 0 <= i < WIDTH ==> r[i] == 0
    ensures IsShr(x, k, s, 0, r)
  {
  }

  // ----- products -----

  // A product of words and two more words fit in 64 bits.
  lemma WordProduct(x: u32, y: u32, c: u32, d: u32)
    ensures Times(x, y) + c + d < WORD64
    ensures x == 0 || y == 0 ==> Times(x, y) == 0
  {
    MulMonotonic(x, y, BASE - 1);
    MulMonotonic(BASE - 1, x, BASE - 1);
  }

  lemma ZeroWord()
    ensures Truncate(0) == 0
  {
  }

  lemma NothingTimes(x: seq<u32>, b: nat)
    ensures Value(x[..0]) * b == 0 == Value(x[..0])
  {
  }

  lemma MulAlgebra(b: int, vx: int, x: int, carry: int, p: int)
    ensures (vx + x * p) * b + carry * p == vx * b + (b * x + carry) * p
  {
    Distribute(b, vx, x * p);
    Distribute(p, b * x, carry);
    assert x * p * b == b * x * p;
  }

  lemma MulStep(x: seq<u32>, r: seq<u32>, i: nat, b32: u32, carry: nat, n: nat)
    requires |x| == |r| == WIDTH && i < WIDTH && n == Times(b32, x[i]) + carry && n < WORD64
    requires Value(r[..i]) + carry * Pow2(32 * i) == Value(x[..i]) * b32
    ensures n / BASE < BASE
    ensures Value(r[i := Truncate(n)][..i + 1]) + n / BASE * Pow2(32 * (i + 1)) == Value(x[..i + 1]) * b32
  {
    hide Value, Pow2, Truncate;
    ValueWrite(r, i, Truncate(n));
    ValueStep(x, i);
    CarryStep(Pow2(32 * i), n);
    Pow2Limb(i);
    MulAlgebra(b32, Value(x[..i]), x[i], carry, Pow2(32 * i));
  }

  lemma Multiplied(x: seq<u32>, r: seq<u32>, b: nat, carry: nat)
    requires |x| == |r| == WIDTH
    requires Value(r[..WIDTH]) + carry * Pow2(32 * WIDTH) == Value(x[..WIDTH]) * b
    ensures Value(r) == Value(x) * b % MODULUS
  {
    hide Value, Pow2;
    assert r[..WIDTH] == r && x[..WIDTH] == x;
    ValueBound(r);
    assert 32 * WIDTH == 256;
    Residue(Value(x) * b, carry, Value(r));
  }

  lemma NoRow(x: u32, y: seq<u32>, j: nat)
    ensures Times(Times(x, Value(y[..0])), Pow2(32 * j)) == 0 == Times(0, Pow2(32 * j))
  {
  }

  lemma UpdateLimb(r: seq<u32>, k: nat, t: u32)
    requires k < |r|
    ensures Value(r[k := t]) + Times(r[k], Pow2(32 * k)) == Value(r) + Times(t, Pow2(32 * k))
  {
    hide Value, Pow2;
    ValueUpdate(r, k, t);
    var was: int := r[k];
    Distribute(Pow2(32 * k), t, -was);
  }

  lemma StepLimb(y: seq<u32>, i: nat)
    requires i < |y|
    ensures Value(y[..i + 1]) == Value(y[..i]) + Times(y[i], Pow2(32 * i))
  {
    ValueStep(y, i);
  }

  lemma CarryLimb(k: nat, n: nat)
    ensures Times(Truncate(n), Pow2(32 * k)) + Times(n / BASE, Pow2(32 * (k + 1))) == Times(n, Pow2(32 * k))
  {
    hide Pow2;
    CarryStep(Pow2(32 * k), n);
    Pow2Limb(k);
  }

  lemma Pow2Split(i: nat, j: nat)
    ensures Pow2(32 * (i + j)) == Times(Pow2(32 * i), Pow2(32 * j))
  {
    Pow2Times(32 * i, 32 * j, 32 * (i + j));
  }

  lemma RowAlgebra(p: nat, pi: nat, pj: nat, n: nat, r: nat, carry: nat, x: nat, y: nat, vy: nat)
    requires p == Times(pi, pj) && n == Times(x, y) + carry + r
    ensures Times(n, p) + Times(Times(x, vy), pj) == Times(r, p) + Times(carry, p) + Times(Times(x, vy + Times(y, pi)), pj)
  {
    Distribute(p, x * y + carry, r);
    Distribute(p, x * y, carry);
    Distribute(x, vy, y * pi);
    Distribute(pj, x * vy, x * (y * pi));
    assert x * (y * pi) * pj == x * y * (pi * pj);
  }

  // One limb of a row.
  lemma RowStep(z: nat, x: u32, y: seq<u32>, r: seq<u32>, i: nat, k: nat, j: nat, carry: nat, n: nat)
    requires |y| == |r| == WIDTH && k == i + j < WIDTH
    requires n == Times(x, y[i]) + carry + r[k] && n < WORD64
    requires Value(r) + Times(carry, Pow2(32 * k)) == z + Times(Times(x, Value(y[..i])), Pow2(32 * j))
    ensures n / BASE < BASE
    ensures Value(r[k := Truncate(n)]) + Times(n / BASE, Pow2(32 * (k + 1))) == z + Times(Times(x, Value(y[..i + 1])), Pow2(32 * j))
  {
    hide Value, Pow2, Truncate, Times;
    var t, c, p := Truncate(n), n / BASE, Pow2(32 * k);
    assert c < BASE;
    UpdateLimb(r, k, t);
    StepLimb(y, i);
    CarryLimb(k, n);
    Pow2Split(i, j);
    RowAlgebra(p, Pow2(32 * i), Pow2(32 * j), n, r[k], carry, x, y[i], Value(y[..i]));
  }

  lemma RowsAlgebra(r: int, b: int, lost: int, carry: int, m: int, vx: int, x: int, p: int, low: int, high: int, q: int)
    requires m == q * p && r + carry * m == b + x * low * p && b + lost * m == vx * (low + q * high)
    ensures r + (lost + carry + x * high) * m == (vx + x * p) * (low + q * high)
  {
    Distribute(m, lost + carry, x * high);
    Distribute(m, lost, carry);
    Distribute(low + q * high, vx, x * p);
    Distribute(x * p, low, q * high);
    assert x * p * low == x * low * p;
    assert x * p * (q * high) == x * high * (q * p);
  }

  lemma RowAdded(x: seq<u32>, y: seq<u32>, before: seq<u32>, r: seq<u32>, j: nat, carry: nat, lost: nat)
    requires |x| == |y| == |before| == |r| == WIDTH && j < WIDTH
    requires Value(r) + Times(carry, Pow2(32 * WIDTH)) == Value(before) + Times(Times(x[j], Value(y[..WIDTH - j])), Pow2(32 * j))
    requires Value(before) + lost * MODULUS == Value(x[..j]) * Value(y)
    ensures Value(r) + (lost + carry + Times(x[j], Value(y[WIDTH - j..]))) * MODULUS == Value(x[..j + 1]) * Value(y)
  {
    hide Value, Pow2;
    ValueStep(x, j);
    ValueSplit(y, WIDTH - j);
    Pow2Times(32 * (WIDTH - j), 32 * j, 256);
    assert 32 * WIDTH == 256;
    RowsAlgebra(Value(r), Value(before), lost, carry, MODULUS, Value(x[..j]), x[j], Pow2(32 * j),
                Value(y[..WIDTH - j]), Value(y[WIDTH - j..]), Pow2(32 * (WIDTH - j)));
  }

  // ----- the low 64 bits -----

  lemma TwoLow(s: seq<u32>)
    requires |s| == WIDTH
    ensures Value(s[..2]) == s[0] + BASE * s[1]
  {
    assert s[..0] == [];
    ValueStep(s, 0);
    ValueStep(s, 1);
    hide Value;
    Pow2Small();
    assert Pow2(32 * 0) == 1;
  }

  lemma WordPair(x: u32, y: u32)
    ensures 0 <= x + BASE * y < WORD64
  {
    MulMonotonic(BASE, y, BASE - 1);
  }

  lemma LowWord(s: seq<u32>)
    requires |s| == WIDTH
    ensures s[0] + BASE * s[1] < WORD64
    ensures s[0] + BASE * s[1] == Value(s) % WORD64
    ensures Value(s) == s[0] + BASE * s[1] + WORD64 * Value(s[2..])
  {
    hide Value, Pow2;
    TwoLow(s);
    ValueSplit(s, 2);
    Pow2Word64();
    WordPair(s[0], s[1]);
    DivModUnique(Value(s), WORD64, Value(s[2..]), s[0] + BASE * s[1]);
  }

  lemma {:induction false} ZeroLimbs(s: seq<u32>)
    requires Value(s) == 0
    ensures forall i :: 0 <= i < |s| ==> s[i] == 0
  {
    if s != [] {
      var n := |s| - 1;
      Pow2Positive(32 * n);
      MulMonotonic(s[n], 1, Pow2(32 * n));
      ZeroLimbs(s[..n]);
    }
  }

  lemma OnlyLowLimbs(s: seq<u32>, b: nat)
    requires |s| == WIDTH && b < WORD64 && Value(s) == b
    ensures s[0] == Truncate(b) && s[1] == b / BASE && forall i :: 2 <= i < WIDTH ==> s[i] == 0
  {
    LowWord(s);
    assert b == s[0] + BASE * s[1];
    assert Value(s[2..]) == 0;
    ZeroLimbs(s[2..]);
    forall i | 2 <= i < WIDTH ensures s[i] == 0 {
      assert s[i] == s[2..][i - 2];
    }
  }

  lemma LowLimbs(s: seq<u32>, b: nat)
    requires |s| == WIDTH && b < WORD64
    ensures Value(s) == b <==> s[0] == Truncate(b) && s[1] == b / BASE && forall i :: 2 <= i < WIDTH ==> s[i] == 0
  {
    if s[0] == Truncate(b) && s[1] == b / BASE && forall i :: 2 <= i < WIDTH ==> s[i] == 0 {
      TwoLimbs(s, b);
    }
    if Value(s) == b {
      OnlyLowLimbs(s, b);
    }
  }

  // ----- division -----

  lemma BitLengthZero(v: nat, r: nat)
    requires IsBitLength(v, r)
    ensures r == 0 <==> v == 0
  {
  }

  lemma SmallerLength(n: nat, nb: nat, d: nat, db: nat)
    requires IsBitLength(n, nb) && IsBitLength(d, db) && db > nb
    ensures d > 0 && n / d == 0
  {
    if n > 0 {
      Pow2Monotonic(nb, db - 1);
    }
    DivModUnique(n, d, 0, n);
  }

  lemma ShiftedBounds(n: nat, d: nat, low: nat, up: nat, p: nat, p': nat, top: nat)
    requires n < top && low <= d < up && top == low * p' && top == up * p && p >= 1
    ensures n < Times(d, p') && 0 <= d * p < top && n + Times(0, d) == n
  {
    MulMonotonic(p', low, d);
    MulMonotonic(p, d + 1, up);
    Distribute(p, d, 1);
  }

  // The divisor moved up to the length of the number still fits.
  lemma Aligned(n: nat, nb: nat, d: nat, db: nat)
    requires IsBitLength(n, nb) && IsBitLength(d, db) && 0 < db <= nb <= 256
    ensures n < Times(d, Pow2(nb - db + 1))
    ensures d * Pow2(nb - db) % MODULUS == Times(d, Pow2(nb - db))
    ensures n + Times(0, d) == n
  {
    var k := nb - db;
    Pow2Times(db - 1, k + 1, nb);
    Pow2Times(db, k, nb);
    Pow2Monotonic(nb, 256);
    Pow2Positive(k);
    hide Pow2;
    ShiftedBounds(n, d, Pow2(db - 1), Pow2(db), Pow2(k), Pow2(k + 1), Pow2(nb));
    DivModUnique(d * Pow2(k), MODULUS, 0, d * Pow2(k));
  }

  /** The lowest `n` bits are zero. */
  ghost predicate LowClear(s: seq<u32>, n: nat)
  {
    && |s| == WIDTH
    && forall i :: 0 <= i < WIDTH ==>
         && (32 * (i + 1) <= n ==> s[i] == 0)
         && (32 * i < n < 32 * (i + 1) ==> s[i] % Pow2(n - 32 * i) == 0)
  }

  lemma AllClear(s: seq<u32>, n: nat)
    requires |s| == WIDTH && forall i :: 0 <= i < WIDTH ==> s[i] == 0
    ensures LowClear(s, n)
  {
    hide Pow2;
    forall i | 0 <= i < WIDTH && 32 * i < n < 32 * (i + 1) ensures s[i] % Pow2(n - 32 * i) == 0 {
      DivModUnique(0, Pow2(n - 32 * i), 0, 0);
    }
  }

  lemma FewerBits(x: nat, k: nat)
    requires x % Pow2(k + 1) == 0
    ensures x % Pow2(k) == 0
  {
    var p := Pow2(k);
    var q := x / (2 * p);
    assert x == 2 * p * q == p * (2 * q);
    DivModUnique(x, p, 2 * q, 0);
  }

  // One bit fewer is clear.
  lemma LessClear(s: seq<u32>, n: nat)
    requires LowClear(s, n + 1)
    ensures LowClear(s, n)
  {
    forall i | 0 <= i < WIDTH && 32 * i < n < 32 * (i + 1) ensures s[i] % Pow2(n - 32 * i) == 0 {
      hide Pow2;
      if n + 1 == 32 * (i + 1) {
        DivModUnique(0, Pow2(n - 32 * i), 0, 0);
      } else {
        FewerBits(s[i], n - 32 * i);
      }
    }
  }

  lemma BitAlone(x: u32, k: nat, s: seq<u32>, n: nat)
    requires LowClear(s, n + 1) && n < 256 && x == s[n / 32] && k == n % 32
    ensures Shl32(1, k) == Pow2(k) && Or32(x, Shl32(1, k)) == x + Pow2(k)
  {
    hide BitOr;
    Pow2Small();
    Pow2Monotonic(k, 31);
    assert Pow2(32) == 2 * Pow2(31);
    DivModUnique(Pow2(k), BASE, 0, Pow2(k));
    if k == 31 {
      assert x == 0;
      BitOrZero(Pow2(k));
    } else {
      assert x % Pow2(k + 1) == 0;
      assert Pow2(k) < Pow2(k + 1);
      BitOrAdds(x, Pow2(k), k + 1);
    }
  }

  lemma NextMultiple(x: nat, p: nat)
    requires p > 0 && x % p == 0
    ensures (x + p) % p == 0
  {
    var q := x / p;
    assert x == p * q;
    Distribute(p, q, 1);
    DivModUnique(x + p, p, q + 1, 0);
  }

  lemma BitWritten(s: seq<u32>, n: nat, v: u32)
    requires LowClear(s, n) && n < 256 && v == s[n / 32] + Pow2(n % 32)
    ensures LowClear(s[n / 32 := v], n)
  {
    hide Pow2;
    var i, k := n / 32, n % 32;
    if k > 0 {
      assert s[i] % Pow2(k) == 0;
      NextMultiple(s[i], Pow2(k));
    }
  }

  // Setting a bit above clear ones adds its value.
  lemma SetBit(s: seq<u32>, n: nat)
    requires LowClear(s, n + 1) && n < 256
    ensures LowClear(s, n)
    ensures var s' := s[n / 32 := Or32(s[n / 32], Shl32(1, n % 32))];
            LowClear(s', n) && Value(s') == Value(s) + Pow2(n)
  {
    LessClear(s, n);
    var i, k := n / 32, n % 32;
    BitAlone(s[i], k, s, n);
    hide Pow2, Value, LowClear, BitOr;
    var v := Or32(s[i], Shl32(1, k));
    ValueUpdate(s, i, v);
    Pow2Times(k, 32 * i, n);
    BitWritten(s, n, v);
  }

  // What one round of the division keeps.
  lemma SubtractStep(n: nat, d: nat, num: nat, q: nat, shift: nat)
    requires num + Times(q, d) == n && num < Times(d, Pow2(shift + 1))
    ensures Times(d, Pow2(shift + 1)) == 2 * Times(d, Pow2(shift))
    ensures Times(q + Pow2(shift), d) == Times(q, d) + Times(d, Pow2(shift))
  {
    var p := Pow2(shift);
    assert Pow2(shift + 1) == 2 * p;
    hide Pow2;
    Distribute(d, q, p);
    assert d * (2 * p) == 2 * (d * p);
  }

  lemma SmallDifference(a: nat, b: nat)
    requires b <= a < MODULUS
    ensures (a - b) % MODULUS == a - b
  {
    DivModUnique(a - b, MODULUS, 0, a - b);
  }

  lemma HalfShift(d: nat, shift: nat)
    ensures shift > 0 ==> Times(d, Pow2(shift)) / Pow2(1) == Times(d, Pow2(shift - 1))
  {
    if shift > 0 {
      var p := Pow2(shift - 1);
      assert Pow2(shift) == 2 * p && Pow2(1) == 2;
      assert d * (2 * p) == 2 * (d * p);
    }
  }

  lemma QuotientFound(n: nat, d: nat, num: nat, q: nat)
    requires d > 0 && num + Times(q, d) == n && num < Times(d, Pow2(0))
    ensures q == n / d
  {
    assert Pow2(0) == 1;
    DivModUnique(n, d, q, num);
  }

  // ----- the integers themselves -----

  class BaseUint {
    const pn: array<u32>

    ghost predicate Valid()
    {
      pn.Length == WIDTH
    }

    ghost function Val(): nat
      requires Valid()
      reads pn
    {
      Value(pn[..])
    }

    constructor ()
      ensures Valid() && fresh(pn) && Val() == 0
    {
      pn := new u32[WIDTH](i => 0);
      new;
      ValueZero(pn[..]);
    }

    constructor Copy(b: BaseUint)
      requires b.Valid()
      ensures Valid() && fresh(pn) && pn[..] == b.pn[..] && Val() == b.Val()
    {
      pn := new u32[WIDTH](i requires 0 <= i < WIDTH reads b.pn => b.pn[i]);
      new;
      assert pn[..] == b.pn[..];
    }

    constructor From64(b: nat)
      requires b < WORD64
      ensures Valid() && fresh(pn) && Val() == b
    {
      pn := new u32[WIDTH](i => 0);
      new;
      pn[0] := Truncate(b);
      pn[1] := b / BASE;
      TwoLimbs(pn[..], b);
    }

    lemma ValBound()
      requires Valid()
      ensures Val() < MODULUS
    {
      ValueBound(pn[..]);
    }

    /** Adds modulo 2^256; the operand may be this number itself. */
    method AddAssign(b: BaseUint)
      requires Valid() && b.Valid()
      modifies pn
      ensures Val() == (old(Val()) + old(b.Val())) % MODULUS
    {
      hide Value, Pow2, Truncate;
      ghost var x, y := pn[..], b.pn[..];
      var carry := 0;
      NothingAdded(x, y);
      for i := 0 to WIDTH
        invariant 0 <= carry <= 1
        invariant forall k :: i <= k < WIDTH ==> pn[k] == x[k] && b.pn[k] == y[k]
        invariant Value(pn[..][..i]) + carry * Pow2(32 * i) == Value(x[..i]) + Value(y[..i])
      {
        var n := carry + pn[i] + b.pn[i];
        AddStep(x, y, pn[..], i, carry, n);
        ghost var before := pn[..];
        pn[i] := Truncate(n);
        assert pn[..] == before[i := Truncate(n)];
        carry := n / BASE;
      }
      Added(x, y, pn[..], carry);
    }

    /** Bitwise complement. */
    method Complement() returns (r: BaseUint)
      requires Valid()
      ensures fresh(r) && r.Valid() && fresh(r.pn) && r.Val() == MODULUS - 1 - Val()
    {
      hide Value, Pow2;
      r := new BaseUint();
      ghost var x := pn[..];
      for i := 0 to WIDTH
        invariant fresh(r) && r.Valid() && fresh(r.pn) && pn[..] == x
        invariant forall k :: 0 <= k < i ==> r.pn[k] == BASE - 1 - pn[k]
      {
        r.pn[i] := BASE - 1 - pn[i];
      }
      ComplementValue(x, r.pn[..]);
      assert 32 * WIDTH == 256;
    }

    /** Adds one, and goes on to the next limb while the result is zero. */
    method Increment()
      requires Valid()
      modifies pn
      ensures Val() == (old(Val()) + 1) % MODULUS
    {
      hide Value, Pow2, Plus;
      ghost var x: int := Val();
      var i := 0;
      UnitLimb();
      IncrementLimb(pn[..], 0);
      ghost var before := pn[..];
      pn[i] := Plus(pn[i], 1);
      assert pn[..] == before[0 := Plus(before[0], 1)];
      while pn[i] == 0 && i < WIDTH - 1
        invariant 0 <= i < WIDTH
        invariant Val() + (if pn[i] == 0 then Pow2(32 * (i + 1)) else 0) == x + 1
      {
        i := i + 1;
        IncrementLimb(pn[..], i);
        before := pn[..];
        pn[i] := Plus(pn[i], 1);
        assert pn[..] == before[i := Plus(before[i], 1)];
      }
      ValBound();
      assert 32 * WIDTH == 256;
      Residue(x + 1, if pn[i] == 0 then 1 else 0, Val());
    }

    method Negate() returns (r: BaseUint)
      requires Valid()
      ensures fresh(r) && r.Valid() && fresh(r.pn) && r.Val() == (MODULUS - Val()) % MODULUS
    {
      hide Value, Pow2;
      r := Complement();
      r.Increment();
    }

    method SubAssign(b: BaseUint)
      requires Valid() && b.Valid()
      modifies pn
      ensures Val() == (old(Val()) - old(b.Val())) % MODULUS
    {
      hide Value, Pow2;
      var minus := b.Negate();
      AddAssign(minus);
      SubResidue(old(Val()), old(b.Val()), MODULUS);
    }

    method Decrement()
      requires Valid()
      modifies pn
      ensures Val() == (old(Val()) - 1) % MODULUS
    {
      hide Value, Pow2, Plus;
      ghost var x: int := Val();
      var i := 0;
      UnitLimb();
      DecrementLimb(pn[..], 0);
      ghost var before := pn[..];
      pn[i] := Plus(pn[i], -1);
      assert pn[..] == before[0 := Plus(before[0], -1)];
      while pn[i] == BASE - 1 && i < WIDTH - 1
        invariant 0 <= i < WIDTH
        invariant Val() - (if pn[i] == BASE - 1 then Pow2(32 * (i + 1)) else 0) == x - 1
      {
        i := i + 1;
        DecrementLimb(pn[..], i);
        before := pn[..];
        pn[i] := Plus(pn[i], -1);
        assert pn[..] == before[i := Plus(before[i], -1)];
      }
      ValBound();
      assert 32 * WIDTH == 256;
      Residue(x - 1, if pn[i] == BASE - 1 then -1 else 0, Val());
    }

    /** -1, 0 or 1, from the highest limb down. */
    method CompareTo(b: BaseUint) returns (r: int)
      requires Valid() && b.Valid()
      ensures r == if Val() < b.Val() then -1 else if Val() > b.Val() then 1 else 0
    {
      hide Value, Pow2;
      for i := WIDTH downto 0
        invariant forall k :: i <= k < WIDTH ==> pn[k] == b.pn[k]
      {
        if pn[i] < b.pn[i] {
          ValueLess(pn[..], b.pn[..], i);
          return -1;
        }
        if pn[i] > b.pn[i] {
          ValueLess(b.pn[..], pn[..], i);
          return 1;
        }
      }
      assert pn[..] == b.pn[..];
      return 0;
    }

    /** The position of the highest set bit plus one, or zero. */
    method Bits() returns (r: nat)
      requires Valid()
      ensures r <= 256 && IsBitLength(Val(), r)
    {
      hide Value, Pow2;
      for pos := WIDTH downto 0
        invariant forall k :: pos <= k < WIDTH ==> pn[k] == 0
      {
        if pn[pos] != 0 {
          Pow2Small();
          for bits := 32 downto 1
            invariant pn[pos] < Pow2(bits)
          {
            TopBit(pn[pos], bits);
            if TestBit(pn[pos], bits) {
              LimbBits(pn[..], pos, bits);
              return 32 * pos + bits + 1;
            }
          }
          LowestBit(pn[pos]);
          LimbBits(pn[..], pos, 0);
          return 32 * pos + 1;
        }
      }
      ValueZero(pn[..]);
      return 0;
    }

    method SetZero()
      requires Valid()
      modifies pn
      ensures Val() == 0 && forall i :: 0 <= i < WIDTH ==> pn[i] == 0
    {
      for i := 0 to WIDTH
        invariant forall k :: 0 <= k < i ==> pn[k] == 0
      {
        pn[i] := 0;
      }
      ValueZero(pn[..]);
    }

    method Set64(b: nat)
      requires Valid() && b < WORD64
      modifies pn
      ensures Val() == b
    {
      pn[0] := Truncate(b);
      pn[1] := b / BASE;
      for i := 2 to WIDTH
        invariant pn[0] == Truncate(b) && pn[1] == b / BASE
        invariant forall k :: 2 <= k < i ==> pn[k] == 0
      {
        pn[i] := 0;
      }
      TwoLimbs(pn[..], b);
    }

    method ShiftLeft(shift: nat)
      requires Valid()
      modifies pn
      ensures Val() == old(Val()) * Pow2(shift) % MODULUS
    {
      hide Value, Pow2, BitOr, Shl32, Shr32, ShlLimb;
      ghost var x := pn[..];
      var a := new BaseUint.Copy(this);
      SetZero();
      var k, s := shift / 32, shift % 32;
      NothingShifted(x, k, s, pn[..]);
      for i := 0 to WIDTH
        invariant a.Valid() && fresh(a.pn) && a.pn[..] == x
        invariant IsShl(x, k, s, i, pn[..])
      {
        ShlStep(x, k, s, i, pn[..]);
        ghost var r := pn[..];
        if i + k + 1 < WIDTH && s != 0 {
          pn[i + k + 1] := Or32(pn[i + k + 1], Shr32(a.pn[i], 32 - s));
          assert pn[..] == r[i + k + 1 := Or32(r[i + k + 1], Shr32(x[i], 32 - s))];
        }
        ghost var r1 := pn[..];
        if i + k < WIDTH {
          pn[i + k] := Or32(pn[i + k], Shl32(a.pn[i], s));
          assert pn[..] == r1[i + k := Or32(r1[i + k], Shl32(x[i], s))];
        }
      }
      ShlValue(x, k, s, pn[..]);
      assert 32 * k + s == shift;
    }

    method ShiftRight(shift: nat)
      requires Valid()
      modifies pn
      ensures Val() == old(Val()) / Pow2(shift)
    {
      hide Value, Pow2, BitOr, Shl32, Shr32, ShrLimb;
      ghost var x := pn[..];
      var a := new BaseUint.Copy(this);
      SetZero();
      var k, s := shift / 32, shift % 32;
      NothingShiftedRight(x, k, s, pn[..]);
      for i := 0 to WIDTH
        invariant a.Valid() && fresh(a.pn) && a.pn[..] == x
        invariant IsShr(x, k, s, i, pn[..])
      {
        ShrStep(x, k, s, i, pn[..]);
        ghost var r := pn[..];
        if i - k - 1 >= 0 && s != 0 {
          pn[i - k - 1] := Or32(pn[i - k - 1], Shl32(a.pn[i], 32 - s));
          assert pn[..] == r[i - k - 1 := Or32(r[i - k - 1], Shl32(x[i], 32 - s))];
        }
        ghost var r1 := pn[..];
        if i - k >= 0 {
          pn[i - k] := Or32(pn[i - k], Shr32(a.pn[i], s));
          assert pn[..] == r1[i - k := Or32(r1[i - k], Shr32(x[i], s))];
        }
      }
      ShrValue(x, k, s, pn[..]);
      assert 32 * k + s == shift;
    }

    /** Multiplies by a word; no sum exceeds 64 bits. */
    method MulAssign32(b32: u32)
      requires Valid()
      modifies pn
      ensures Val() == old(Val()) * b32 % MODULUS
    {
      hide Value, Pow2, Truncate;
      ghost var x := pn[..];
      var carry: nat := 0;
      NothingTimes(x, b32);
      for i := 0 to WIDTH
        invariant carry < BASE
        invariant forall k :: i <= k < WIDTH ==> pn[k] == x[k]
        invariant Value(pn[..][..i]) + carry * Pow2(32 * i) == Value(x[..i]) * b32
      {
        WordProduct(b32, pn[i], carry, 0);
        var n: nat := Times(b32, pn[i]) + carry;
        assert n < WORD64;
        MulStep(x, pn[..], i, b32, carry, n);
        ghost var before := pn[..];
        pn[i] := Truncate(n);
        assert pn[..] == before[i := Truncate(n)];
        carry := n / BASE;
      }
      Multiplied(x, pn[..], b32, carry);
    }

    /** Adds limb `j` of `a` times `b`, moved up by `j` limbs; no sum exceeds 64 bits. */
    method AddRow(a: BaseUint, b: BaseUint, j: nat) returns (carry: nat)
      requires Valid() && a.Valid() && b.Valid() && (b == this || b.pn != pn) && a.pn != pn && j < WIDTH
      requires b == this ==> forall k :: 0 <= k < WIDTH ==> pn[k] == 0
      modifies pn
      ensures b == this ==> forall k :: 0 <= k < WIDTH ==> pn[k] == 0
      ensures b != this ==>
                Value(pn[..]) + Times(carry, Pow2(32 * WIDTH))
                == Value(old(pn[..])) + Times(Times(a.pn[j], Value(b.pn[..][..WIDTH - j])), Pow2(32 * j))
    {
      hide Value, Pow2, Truncate, Times;
      ghost var x, y, z := a.pn[j], b.pn[..], Value(pn[..]);
      carry := 0;
      NoRow(x, y, j);
      for i := 0 to WIDTH - j
        invariant carry < BASE
        invariant b == this || b.pn[..] == y
        invariant b == this ==> carry == 0 && forall k :: 0 <= k < WIDTH ==> pn[k] == 0
        invariant b != this ==>
                    Value(pn[..]) + Times(carry, Pow2(32 * (i + j))) == z + Times(Times(x, Value(y[..i])), Pow2(32 * j))
      {
        WordProduct(a.pn[j], b.pn[i], carry, pn[i + j]);
        var n: nat := Times(a.pn[j], b.pn[i]) + carry + pn[i + j];
        assert n < WORD64;
        if b != this {
          RowStep(z, x, y, pn[..], i, i + j, j, carry, n);
          assert i + 1 + j == i + j + 1;
        }
        ghost var before := pn[..];
        pn[i + j] := Truncate(n);
        assert pn[..] == before[i + j := Truncate(n)];
        ZeroWord();
        carry := n / BASE;
      }
    }

    /** Multiplies in place; a number multiplied by itself this way becomes zero. */
    method MulAssign(b: BaseUint)
      requires Valid() && b.Valid() && (b == this || b.pn != pn)
      modifies pn
      ensures Val() == if b == this then 0 else old(Val()) * b.Val() % MODULUS
    {
      hide Value, Pow2, Truncate;
      var a := new BaseUint.Copy(this);
      ghost var x, y, start := pn[..], b.pn[..], Val();
      SetZero();
      ghost var lost: nat := 0;
      NothingTimes(x, Value(y));
      for j := 0 to WIDTH
        invariant a.Valid() && fresh(a.pn) && a.pn[..] == x
        invariant b == this || b.pn[..] == y
        invariant b == this ==> forall k :: 0 <= k < WIDTH ==> pn[k] == 0
        invariant b != this ==> Value(pn[..]) + lost * MODULUS == Value(x[..j]) * Value(y)
      {
        ghost var before := pn[..];
        var carry := AddRow(a, b, j);
        if b != this {
          RowAdded(x, y, before, pn[..], j, carry, lost);
          lost := lost + carry + Times(x[j], Value(y[WIDTH - j..]));
        }
      }
      if b == this {
        ValueZero(pn[..]);
      } else {
        assert x[..WIDTH] == x;
        ValBound();
        Residue(Value(x) * Value(y), lost, Val());
      }
    }

    /** The divisor is taken off once, and bit `shift` is set. */
    method TakeBit(num: BaseUint, div: BaseUint, shift: nat)
      requires Valid() && num.Valid() && div.Valid() && num.pn != div.pn && num.pn != pn
      requires shift < 256 && LowClear(pn[..], shift + 1) && num.Val() >= div.Val()
      modifies pn, num.pn
      ensures num.Val() == old(num.Val()) - old(div.Val()) && Val() == old(Val()) + Pow2(shift)
      ensures LowClear(pn[..], shift)
    {
      hide Value, Pow2, BitOr, Shl32, LowClear;
      ghost var was, dv, limbs := num.Val(), div.Val(), pn[..];
      SetBit(pn[..], shift);
      num.ValBound();
      num.SubAssign(div);
      SmallDifference(was, dv);
      pn[shift / 32] := Or32(pn[shift / 32], Shl32(1, shift % 32));
      assert pn[..] == limbs[shift / 32 := Or32(limbs[shift / 32], Shl32(1, shift % 32))];
    }

    /** Divides by shifting and subtracting; dividing by zero fails and leaves zero. */
    method DivAssign(b: BaseUint) returns (ok: bool)
      requires Valid() && b.Valid()
      modifies pn
      ensures ok <==> old(b.Val()) != 0
      ensures Val() == if old(b.Val()) == 0 then 0 else old(Val()) / old(b.Val())
    {
      hide Value, Pow2, BitOr, Shl32, LowClear, IsBitLength;
      ghost var n, d := Val(), b.Val();
      var div := new BaseUint.Copy(b);
      var num := new BaseUint.Copy(this);
      SetZero();
      var numBits := num.Bits();
      var divBits := div.Bits();
      BitLengthZero(d, divBits);
      if divBits == 0 {
        return false;
      }
      if divBits > numBits {
        SmallerLength(n, numBits, d, divBits);
        return true;
      }
      var shift: int := numBits - divBits;
      Aligned(n, numBits, d, divBits);
      div.ShiftLeft(shift);
      AllClear(pn[..], shift + 1);
      while shift >= 0
        invariant -1 <= shift < 256
        invariant div.Valid() && num.Valid() && fresh(div.pn) && fresh(num.pn) && div.pn != num.pn
        invariant num.Val() + Times(Val(), d) == n && num.Val() < Times(d, Pow2(shift + 1))
        invariant shift >= 0 ==> div.Val() == Times(d, Pow2(shift))
        invariant LowClear(pn[..], shift + 1)
        decreases shift
      {
        var c := num.CompareTo(div);
        SubtractStep(n, d, num.Val(), Val(), shift);
        LessClear(pn[..], shift);
        if c >= 0 {
          TakeBit(num, div, shift);
        }
        div.ShiftRight(1);
        HalfShift(d, shift);
        shift := shift - 1;
      }
      QuotientFound(n, d, num.Val(), Val());
      return true;
    }

    /** Comparison with a 64-bit number. */
    method EqualTo64(b: nat) returns (r: bool)
      requires Valid() && b < WORD64
      ensures r <==> Val() == b
    {
      hide Value, Pow2, Truncate;
      LowLimbs(pn[..], b);
      for i := WIDTH downto 2
        invariant forall k :: i <= k < WIDTH ==> pn[k] == 0
      {
        if pn[i] != 0 {
          return false;
        }
      }
      if pn[1] != b / BASE {
        return false;
      }
      if pn[0] != Truncate(b) {
        return false;
      }
      return true;
    }

    method GetLow64() returns (r: nat)
      requires Valid()
      ensures r < WORD64 && r == Val() % WORD64
    {
      LowWord(pn[..]);
      r := pn[0] + BASE * pn[1];
    }
  }
}
