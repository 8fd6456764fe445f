// Difficulty targets: retargeting, the work a block stands for, and the check
// of a block's hash.
module ProofOfWork {
  import opened Nonlinear
  import opened Basics
  import opened Limbs
  import opened LimbShifts
  import opened ArithUint256
  import opened Compact

  // ----- retargeting -----

  const INT64_LIMIT := 0x8000_0000_0000_0000

  /** The time between two retargets, limited to a factor of four either way. */
  function Timespan(actual: int, wanted: nat): int
  {
    if actual < wanted / 4 then wanted / 4 else if actual > wanted * 4 then wanted * 4 else actual
  }

  /** a * b / d, without any limit of width. */
  function Ratio(a: nat, b: nat, d: nat): nat
    requires d > 0
  {
    QuotientBound(a * b, d);
    a * b / d
  }

  /** The new target; the product is cut to 256 bits. */
  function NextTarget(prior: nat, time: nat, wanted: nat, limit: nat): nat
    requires wanted > 0
  {
    QuotientBound(prior * time % MODULUS, wanted);
    Min(prior * time % MODULUS / wanted, limit)
  }

  /** The target for the next block, from the times of the last block and of the first one of the interval; the timespan is cut to 32 bits. */
  function TargetForTimes(prior: nat, lastTime: int, firstTime: int, wanted: nat, limit: nat): nat
    requires wanted > 0
  {
    NextTarget(prior, Truncate(Max(Timespan(lastTime - firstTime, wanted), 0)), wanted, limit)
  }

  /** The word for the next block. */
  method CalculateNextWorkRequired(nBits: u32, lastTime: int, firstTime: int, powLimit: BaseUint, wanted: nat) returns (r: u32)
    requires powLimit.Valid() && 0 < wanted && wanted * 4 < INT64_LIMIT
    ensures r == Encoded(TargetForTimes(Decoded(nBits), lastTime, firstTime, wanted, powLimit.Val()), false)
  {
    hide Pow2, Value, Encoded, Decoded;
    var actual := lastTime - firstTime;
    if actual < wanted / 4 {
      actual := wanted / 4;
    }
    if actual > wanted * 4 {
      actual := wanted * 4;
    }
    var bnNew := new BaseUint();
    var negative, overflow := SetCompact(bnNew, nBits);
    bnNew.MulAssign32(Truncate(actual));
    var divisor := new BaseUint.From64(wanted);
    var ok := bnNew.DivAssign(divisor);
    var c := bnNew.CompareTo(powLimit);
    if c > 0 {
      bnNew := new BaseUint.Copy(powLimit);
    }
    r := GetCompact(bnNew, false);
  }

  lemma NextTargetIs(prior: nat, time: nat, wanted: nat, limit: nat)
    requires wanted > 0 && prior * time % MODULUS == prior * time
    ensures NextTarget(prior, time, wanted, limit) == Min(Ratio(prior, time, wanted), limit)
  {
  }

  lemma QuotientBetween(a: nat, b: nat, d: nat)
    requires a <= b && d > 0
    ensures 0 <= a / d <= b / d
  {
    DivCompare(b, d, a / d);
    DivCompare(a, d, a / d);
    QuotientBound(a, d);
  }

  lemma Scaled(prior: nat, a: nat, b: nat, d: nat)
    requires a <= b && d > 0
    ensures 0 <= prior * a / d <= prior * b / d
  {
    MulMonotonic(prior, a, b);
    QuotientBetween(prior * a, prior * b, d);
  }

  lemma FourTimes(prior: nat, wanted: nat)
    requires wanted > 0
    ensures prior * (wanted * 4) / wanted == 4 * prior
  {
    assert prior * (wanted * 4) == wanted * (4 * prior);
    DivModUnique(prior * (wanted * 4), wanted, 4 * prior, 0);
  }

  lemma QuarterOf(prior: nat, wanted: nat)
    requires wanted > 0 && wanted % 4 == 0
    ensures prior * (wanted / 4) / wanted == prior / 4
  {
    var w, q, r := wanted / 4, prior / 4, prior % 4;
    assert wanted == w * 4 && prior == 4 * q + r;
    Distribute(w, 4 * q, r);
    assert w * (4 * q) == wanted * q;
    assert prior * w == wanted * q + w * r;
    MulMonotonic(w, r + 1, 4);
    Distribute(w, r, 1);
    MulMonotonic(w, 0, r);
    DivModUnique(prior * w, wanted, q, w * r);
  }

  lemma ScaledRange(prior: nat, time: nat, wanted: nat)
    requires 0 < wanted && wanted / 4 <= time <= wanted * 4
    ensures Ratio(prior, wanted / 4, wanted) <= Ratio(prior, time, wanted) <= 4 * prior
    ensures wanted % 4 == 0 ==> Ratio(prior, wanted / 4, wanted) == prior / 4
  {
    Scaled(prior, wanted / 4, time, wanted);
    Scaled(prior, time, wanted * 4, wanted);
    FourTimes(prior, wanted);
    if wanted % 4 == 0 {
      QuarterOf(prior, wanted);
    }
  }

  lemma ProductFits(prior: nat, time: nat, wanted: nat, limit: nat)
    requires time <= wanted * 4 && prior <= limit && limit * (wanted * 4) < MODULUS
    ensures prior * time % MODULUS == prior * time
  {
    hide Pow2;
    MulMonotonic(prior, time, wanted * 4);
    MulMonotonic(wanted * 4, prior, limit);
    DivModUnique(prior * time, MODULUS, 0, prior * time);
  }

  // While the product fits, the new target is at most four times the old one
  // and at least a quarter of it, within the limit.
  lemma RetargetRange(prior: nat, time: nat, wanted: nat, limit: nat)
    requires 0 < wanted && wanted / 4 <= time <= wanted * 4
    requires prior <= limit && limit * (wanted * 4) < MODULUS
    ensures var n := NextTarget(prior, time, wanted, limit);
            && n == Min(Ratio(prior, time, wanted), limit)
            && n <= Min(4 * prior, limit)
            && n >= Min(Ratio(prior, wanted / 4, wanted), limit)
            && (wanted % 4 == 0 ==> n >= Min(prior / 4, limit))
  {
    hide Pow2, Ratio, NextTarget;
    ProductFits(prior, time, wanted, limit);
    ScaledRange(prior, time, wanted);
    NextTargetIs(prior, time, wanted, limit);
  }

  // The same for the word that the next block must carry: it is rounded down
  // by less than one part in 2^15.
  lemma RetargetBounds(prior: nat, time: nat, wanted: nat, limit: nat)
    requires 0 < wanted && wanted / 4 <= time <= wanted * 4
    requires prior <= limit && limit * (wanted * 4) < MODULUS
    ensures var n := NextTarget(prior, time, wanted, limit);
            && n < MODULUS && Encoded(n, false) < BASE
            && !Negative(Encoded(n, false)) && !Overflows(Encoded(n, false))
            && Decoded(Encoded(n, false)) <= Min(4 * prior, limit)
            && (n == Decoded(Encoded(n, false)) || (n - Decoded(Encoded(n, false))) * 0x8000 < n)
            && (wanted % 4 == 0 ==> n >= Min(prior / 4, limit))
  {
    hide Pow2, NextTarget, Encoded, Decoded, Negative, Overflows;
    RetargetRange(prior, time, wanted, limit);
    MulMonotonic(limit, 1, wanted * 4);
    DecodeEncode(NextTarget(prior, time, wanted, limit));
  }

  // The limited timespan: what was measured, but at least a quarter of what is
  // wanted and at most four times that.
  lemma TimespanLimits(actual: int, wanted: nat)
    ensures wanted / 4 <= Timespan(actual, wanted) <= 4 * wanted
    ensures wanted / 4 <= actual <= 4 * wanted ==> Timespan(actual, wanted) == actual
    ensures forall longer: int :: actual <= longer ==> Timespan(actual, wanted) <= Timespan(longer, wanted)
  {
  }

  lemma RatioGrows(prior: nat, a: nat, b: nat, wanted: nat)
    requires 0 < wanted && a <= b
    ensures Ratio(prior, a, wanted) <= Ratio(prior, b, wanted)
  {
    Scaled(prior, a, b, wanted);
  }

  lemma TimespanFits(actual: int, wanted: nat)
    requires wanted * 4 < BASE
    ensures Truncate(Max(Timespan(actual, wanted), 0)) == Timespan(actual, wanted)
  {
  }

  lemma ExactTargetForTimes(prior: nat, lastTime: int, firstTime: int, wanted: nat, limit: nat)
    requires 0 < wanted && wanted * 4 < BASE && prior <= limit && limit * (wanted * 4) < MODULUS
    ensures Timespan(lastTime - firstTime, wanted) >= 0
    ensures TargetForTimes(prior, lastTime, firstTime, wanted, limit)
            == NextTarget(prior, Timespan(lastTime - firstTime, wanted), wanted, limit)
            == Min(Ratio(prior, Timespan(lastTime - firstTime, wanted), wanted), limit)
  {
    TimespanFits(lastTime - firstTime, wanted);
    TimespanLimits(lastTime - firstTime, wanted);
    var t := Timespan(lastTime - firstTime, wanted);
    hide Pow2, NextTarget, Timespan, Ratio, Truncate;
    ProductFits(prior, t, wanted, limit);
    NextTargetIs(prior, t, wanted, limit);
  }

  // Blocks that came faster never make the next target greater, while the product fits.
  lemma FasterIsNotEasier(prior: nat, lastTime: int, firstTime: int, lastTime': int, firstTime': int, wanted: nat, limit: nat)
    requires 0 < wanted && wanted * 4 < BASE && prior <= limit && limit * (wanted * 4) < MODULUS
    requires lastTime - firstTime <= lastTime' - firstTime'
    ensures TargetForTimes(prior, lastTime, firstTime, wanted, limit) <= TargetForTimes(prior, lastTime', firstTime', wanted, limit)
  {
    TimespanLimits(lastTime - firstTime, wanted);
    TimespanLimits(lastTime' - firstTime', wanted);
    hide Pow2, Ratio, NextTarget, Timespan, TargetForTimes;
    ExactTargetForTimes(prior, lastTime, firstTime, wanted, limit);
    ExactTargetForTimes(prior, lastTime', firstTime', wanted, limit);
    RatioGrows(prior, Timespan(lastTime - firstTime, wanted), Timespan(lastTime' - firstTime', wanted), wanted);
  }

  lemma RatioAtLimits(prior: nat, wanted: nat)
    requires 0 < wanted && wanted % 4 == 0
    ensures Ratio(prior, wanted, wanted) == prior && Ratio(prior, wanted / 4, wanted) == prior / 4
    ensures Ratio(prior, wanted * 4, wanted) == 4 * prior
  {
    DivModUnique(prior * wanted, wanted, prior, 0);
    QuarterOf(prior, wanted);
    FourTimes(prior, wanted);
  }

  // For any two times the target moves by at most a factor of four; it stays where
  // it is when the blocks took as long as wanted, and falls to a quarter when they
  // took a quarter of that or less.
  lemma TargetMoves(prior: nat, lastTime: int, firstTime: int, wanted: nat, limit: nat)
    requires 0 < wanted && wanted % 4 == 0 && wanted * 4 < BASE && prior <= limit && limit * (wanted * 4) < MODULUS
    ensures var n, took := TargetForTimes(prior, lastTime, firstTime, wanted, limit), lastTime - firstTime;
            && prior / 4 <= n <= Min(4 * prior, limit)
            && (took == wanted ==> n == prior)
            && (took <= wanted / 4 ==> n == prior / 4)
            && (took >= wanted * 4 ==> n == Min(4 * prior, limit))
  {
    TimespanLimits(lastTime - firstTime, wanted);
    if lastTime - firstTime <= wanted / 4 {
      assert Timespan(lastTime - firstTime, wanted) == wanted / 4;
    }
    if lastTime - firstTime >= wanted * 4 {
      assert Timespan(lastTime - firstTime, wanted) == wanted * 4;
    }
    hide Pow2, Ratio, NextTarget, Timespan, TargetForTimes;
    ExactTargetForTimes(prior, lastTime, firstTime, wanted, limit);
    RatioAtLimits(prior, wanted);
    RatioGrows(prior, wanted / 4, Timespan(lastTime - firstTime, wanted), wanted);
    RatioGrows(prior, Timespan(lastTime - firstTime, wanted), wanted * 4, wanted);
  }

  // The same for the word that `CalculateNextWorkRequired` returns: it is rounded
  // down by less than one part in 2^15.
  lemma WordForTimes(nBits: u32, lastTime: int, firstTime: int, wanted: nat, limit: nat)
    requires 0 < wanted && wanted * 4 < BASE && Decoded(nBits) <= limit && limit * (wanted * 4) < MODULUS
    ensures var n := TargetForTimes(Decoded(nBits), lastTime, firstTime, wanted, limit);
            && n < MODULUS && Encoded(n, false) < BASE
            && !Negative(Encoded(n, false)) && !Overflows(Encoded(n, false))
            && Decoded(Encoded(n, false)) <= Min(4 * Decoded(nBits), limit)
            && (n == Decoded(Encoded(n, false)) || (n - Decoded(Encoded(n, false))) * 0x8000 < n)
  {
    TimespanLimits(lastTime - firstTime, wanted);
    hide Pow2, NextTarget, Encoded, Decoded, Negative, Overflows, TargetForTimes, Timespan, Ratio;
    ExactTargetForTimes(Decoded(nBits), lastTime, firstTime, wanted, limit);
    RetargetBounds(Decoded(nBits), Timespan(lastTime - firstTime, wanted), wanted, limit);
  }

  lemma WrappedIsLess(n: nat, m: nat, d: nat)
    requires 0 < d <= m <= n
    ensures 0 <= n % m / d < n / d
  {
    var q := n / m;
    assert n == m * q + n % m;
    assert q >= 1 by {
      DivCompare(n, m, 1);
    }
    MulMonotonic(m, 1, q);
    QuotientBetween(n % m, n - d, d);
    var k := (n - d) / d;
    assert n - d == d * k + (n - d) % d;
    Distribute(d, k, 1);
    DivModUnique(n, d, k + 1, (n - d) % d);
  }

  // The product is exact exactly when it fits 256 bits.
  lemma ExactWhenProductFits(prior: nat, time: nat, wanted: nat)
    requires 0 < wanted <= MODULUS
    ensures Ratio(prior, time, wanted) == prior * time % MODULUS / wanted <==> prior * time < MODULUS
  {
    hide Pow2;
    var n := prior * time;
    if n < MODULUS {
      DivModUnique(n, MODULUS, 0, n);
    } else {
      WrappedIsLess(n, MODULUS, wanted);
    }
  }

  // With the limit: the next target is the exact one if and only if the product
  // fits, or what is left of it still reaches the limit.
  lemma NextTargetExact(prior: nat, time: nat, wanted: nat, limit: nat)
    requires 0 < wanted <= MODULUS
    ensures NextTarget(prior, time, wanted, limit) == Min(Ratio(prior, time, wanted), limit)
            <==> prior * time < MODULUS || limit * wanted <= prior * time % MODULUS
  {
    hide Pow2;
    var n := prior * time;
    DivCompare(n % MODULUS, wanted, limit);
    if n < MODULUS {
      DivModUnique(n, MODULUS, 0, n);
    } else {
      WrappedIsLess(n, MODULUS, wanted);
    }
  }

  lemma ScaledMultiple(p: nat, m: nat)
    requires m > 0 && p * 256 == m * 64
    ensures p * 1_209_600 % m == 0
  {
    assert p * 1_209_600 == p * 256 * 4725 == m * 302_400;
    DivModUnique(p * 1_209_600, m, 302_400, 0);
  }

  lemma TwoWeeksWrap()
    ensures Pow2(254) * 1_209_600 % MODULUS == 0
  {
    assert Pow2(8) == 256 && Pow2(6) == 64;
    hide Pow2;
    Pow2Times(254, 8, 262);
    Pow2Times(256, 6, 262);
    ScaledMultiple(Pow2(254), MODULUS);
  }

  lemma HalfLimit()
    ensures 0 < Pow2(254) <= Pow2(255) - 1
  {
    assert Pow2(255) == 2 * Pow2(254);
  }

  lemma Bit254()
    ensures 0x40_0000 * Pow2(232) == Pow2(254) && 2 * Pow2(254) == Pow2(255) < MODULUS
  {
    Pow2Small();
    assert Pow2(22) == 0x40_0000;
    Pow2Times(22, 232, 254);
    Pow2Monotonic(255, 256);
  }

  lemma WordOf254()
    ensures Size(0x2040_0000) == 32 && Mantissa(0x2040_0000) == 0x40_0000 && !Negative(0x2040_0000)
    ensures Denoted(0x2040_0000) == 0x40_0000 * Pow2(232)
  {
    WordFields(32, 0x40_0000, false);
    hide Pow2, TestBit;
  }

  lemma DecodesTo254()
    ensures Size(0x2040_0000) == 32 && Mantissa(0x2040_0000) == 0x40_0000
    ensures !Negative(0x2040_0000) && !Overflows(0x2040_0000) && Decoded(0x2040_0000) == Pow2(254)
  {
    WordOf254();
    Bit254();
    hide Pow2, Denoted, Negative, Size, Mantissa;
    DivModUnique(Pow2(254), MODULUS, 0, Pow2(254));
  }

  // It does go wrong: on the regression-test network, whose limit is 2^255 - 1,
  // a valid word and a timespan of exactly two weeks give the target zero.
  lemma RegtestTargetCanBeZero()
    ensures var c, twoWeeks, limit := 0x2040_0000, 14 * 24 * 60 * 60, Pow2(255) - 1;
            && !Negative(c) && !Overflows(c) && 0 < Decoded(c) <= limit
            && Timespan(twoWeeks, twoWeeks) == twoWeeks
            && NextTarget(Decoded(c), twoWeeks, twoWeeks, limit) == 0
  {
    DecodesTo254();
    TwoWeeksWrap();
    HalfLimit();
    hide Pow2, Decoded, Negative, Overflows;
  }

  lemma FirstWordFields()
    ensures Size(0x207f_ffff) == 32 && Mantissa(0x207f_ffff) == 0x7f_ffff && !Negative(0x207f_ffff)
    ensures Denoted(0x207f_ffff) == 0x7f_ffff * Pow2(232)
  {
    WordFields(32, 0x7f_ffff, false);
    hide Pow2, TestBit;
  }

  lemma FirstWordFits()
    ensures 0 < 0x7f_ffff * Pow2(232) < MODULUS == Pow2(232) * 0x100_0000
    ensures 0x7f_ffff * Pow2(232) <= Pow2(255) - 1
  {
    hide Pow2;
    Pow2Small();
    Pow2Times(232, 24, 256);
    Pow2Times(232, 23, 255);
    Pow2Positive(232);
  }

  lemma FirstWordDecodes()
    ensures !Negative(0x207f_ffff) && !Overflows(0x207f_ffff) && Decoded(0x207f_ffff) == 0x7f_ffff * Pow2(232)
  {
    FirstWordFields();
    FirstWordFits();
    hide Pow2, Denoted, Negative, Size, Mantissa;
    DivModUnique(0x7f_ffff * Pow2(232), MODULUS, 0, 0x7f_ffff * Pow2(232));
  }

  // Of the product with two weeks, less than thirteen times two weeks are left.
  lemma FirstWordWraps(p: nat)
    requires p > 0
    ensures 0x7f_ffff * p * 1_209_600 / 1_209_600 == 0x7f_ffff * p
    ensures 0x7f_ffff * p * 1_209_600 % (p * 0x100_0000) / 1_209_600 * 600_000 < 0x7f_ffff * p
  {
    DivModUnique(0x7f_ffff * p * 1_209_600, p * 0x100_0000, 604_799, 15_567_616 * p);
    QuotientBetween(15_567_616 * p, 1_209_600 * (13 * p), 1_209_600);
    DivModUnique(1_209_600 * (13 * p), 1_209_600, 13 * p, 0);
    DivModUnique(0x7f_ffff * p * 1_209_600, 1_209_600, 0x7f_ffff * p, 0);
  }

  lemma InexactFrom(prior: nat, time: nat, limit: nat)
    requires 0 < time && prior <= limit && prior * time / time == prior && prior * time % MODULUS / time * 600_000 < prior
    ensures Min(Ratio(prior, time, time), limit) == prior
    ensures NextTarget(prior, time, time, limit) * 600_000 < prior
  {
    hide Pow2;
  }

  // The word that a regression-test chain starts with: exactly two weeks for
  // 2016 blocks should leave the target as it is, but make it 600000 times harder.
  lemma RegtestStartIsInexact()
    ensures var c, twoWeeks, limit := 0x207f_ffff, 14 * 24 * 60 * 60, Pow2(255) - 1;
            && !Negative(c) && !Overflows(c) && 0 < Decoded(c) <= limit
            && Min(Ratio(Decoded(c), twoWeeks, twoWeeks), limit) == Decoded(c)
            && NextTarget(Decoded(c), twoWeeks, twoWeeks, limit) * 600_000 < Decoded(c)
  {
    hide *;
    FirstWordDecodes();
    FirstWordFits();
    Pow2Positive(232);
    FirstWordWraps(Pow2(232));
    InexactFrom(0x7f_ffff * Pow2(232), 1_209_600, Pow2(255) - 1);
  }

  lemma LimitTimesFourTimespans(p: nat)
    requires p >= 1
    ensures (p - 1) * (14 * 24 * 60 * 60 * 4) < p * 0x80_0000
  {
  }

  // On the main network the product always fits, so the bounds hold.
  lemma MainLimitFits()
    ensures var wanted, limit := 14 * 24 * 60 * 60, Pow2(224) - 1;
            wanted % 4 == 0 && limit * (wanted * 4) < MODULUS
  {
    hide Pow2;
    Pow2Small();
    Pow2Times(224, 23, 247);
    Pow2Monotonic(247, 256);
    LimitTimesFourTimespans(Pow2(224));
  }

  // ----- work -----

  function Work(c: u32): nat
  {
    if Negative(c) || Overflows(c) || Decoded(c) == 0 then 0
    else
      QuotientBound(MODULUS, Decoded(c) + 1);
      MODULUS / (Decoded(c) + 1)
  }

  lemma TwoToOne()
    ensures Pow2(1) == 2
  {
  }

  lemma SmallDenoted(c: u32)
    requires Size(c) <= 3
    ensures Denoted(c) < 0x80_0000
  {
    Pow2Positive(8 * (3 - Size(c)));
    QuotientBound(Word(c), Scale(3 - Size(c)));
  }

  lemma EvenProduct(m: nat, p: nat)
    ensures m * (2 * p) % 2 == 0
  {
    assert m * (2 * p) == 2 * (m * p);
  }

  lemma DenotedEven(c: u32)
    requires Size(c) > 3
    ensures Denoted(c) % 2 == 0
  {
    var p := Pow2(8 * (Size(c) - 3) - 1);
    assert Scale(Size(c) - 3) == 2 * p;
    hide Pow2, Mantissa, Size;
    EvenProduct(Mantissa(c), p);
  }

  // The target is never the largest number, so adding one does not wrap.
  lemma TargetHasSuccessor(c: u32)
    requires !Overflows(c)
    ensures Decoded(c) == Denoted(c) && Decoded(c) + 1 < MODULUS
  {
    OverflowIsExact(c);
    hide Overflows;
    Pow2Small();
    var v := Denoted(c);
    hide Pow2, Denoted, Mantissa;
    DivModUnique(v, MODULUS, 0, v);
    if Size(c) <= 3 {
      SmallDenoted(c);
      Pow2Monotonic(32, 256);
    } else {
      DenotedEven(c);
      Pow2Times(1, 255, 256);
      assert Pow2(1) == 2 by {
        TwoToOne();
      }
    }
  }

  lemma SmallEnough(t: nat)
    requires 0 < t && t + 1 < MODULUS
    ensures (t + 1) % MODULUS == t + 1
    ensures MODULUS / (t + 1) < MODULUS && MODULUS / (t + 1) % MODULUS == MODULUS / (t + 1)
  {
    hide Pow2;
    DivModUnique(t + 1, MODULUS, 0, t + 1);
    var q := MODULUS / (t + 1);
    QuotientBound(MODULUS, t + 1);
    assert MODULUS == (t + 1) * q + MODULUS % (t + 1);
    MulMonotonic(q, 2, t + 1);
    DivModUnique(q, MODULUS, 0, q);
  }

  lemma SuccessorQuotient(t: nat, m: nat)
    requires t + 1 <= m
    ensures (m - 1 - t) / (t + 1) + 1 == m / (t + 1)
  {
    var q, r := (m - 1 - t) / (t + 1), (m - 1 - t) % (t + 1);
    assert m - 1 - t == (t + 1) * q + r;
    Distribute(t + 1, q, 1);
    DivModUnique(m, t + 1, q + 1, r);
  }

  /** The work behind a block, worked out without a number above 2^256. */
  method GetBlockProof(nBits: u32) returns (r: BaseUint)
    ensures fresh(r) && r.Valid() && fresh(r.pn) && r.Val() == Work(nBits)
  {
    hide Pow2, Value, Decoded, Negative, Overflows;
    var target := new BaseUint();
    var negative, overflow := SetCompact(target, nBits);
    var isZero := target.EqualTo64(0);
    if negative || overflow || isZero {
      r := new BaseUint();
      return;
    }
    ghost var t := target.Val();
    TargetHasSuccessor(nBits);
    SuccessorQuotient(t, MODULUS);
    SmallEnough(t);
    r := target.Complement();
    var next := new BaseUint.Copy(target);
    var one := new BaseUint.From64(1);
    next.AddAssign(one);
    var ok := r.DivAssign(next);
    assert ok;
    r.AddAssign(one);
  }

  // Every usable target stands for some work, and a lower target for no less.
  lemma WorkIsPositive(c: u32)
    requires !Negative(c) && !Overflows(c) && Decoded(c) != 0
    ensures Work(c) >= 1
  {
    hide Decoded, Negative, Overflows;
    TargetHasSuccessor(c);
    hide Pow2;
    DivCompare(MODULUS, Decoded(c) + 1, 1);
  }

  // The work of a target is how many hashes it takes on average to meet it.
  lemma WorkMeets(c: u32)
    ensures Work(c) == 0 <==> Negative(c) || Overflows(c) || Decoded(c) == 0
    ensures Work(c) > 0 ==> Work(c) * (Decoded(c) + 1) <= Pow2(256) < (Work(c) + 1) * (Decoded(c) + 1)
  {
    if !(Negative(c) || Overflows(c) || Decoded(c) == 0) {
      WorkIsPositive(c);
      QuotientBounds(MODULUS, Decoded(c) + 1);
    }
    hide Pow2, Decoded, Negative, Overflows;
  }

  lemma LowerTargetMoreWork(c: u32, c': u32)
    requires !Negative(c) && !Overflows(c) && !Negative(c') && !Overflows(c') && 0 < Decoded(c) <= Decoded(c')
    ensures Work(c) >= Work(c')
  {
    hide Decoded, Negative, Overflows, Pow2;
    var d, d' := Decoded(c) + 1, Decoded(c') + 1;
    var q := MODULUS / d';
    QuotientBound(MODULUS, d');
    assert MODULUS == d' * q + MODULUS % d';
    MulMonotonic(q, d, d');
    DivCompare(MODULUS, d, q);
  }

  // ----- the check of a hash -----

  method CheckProofOfWork(hash: BaseUint, nBits: u32, powLimit: BaseUint) returns (ok: bool)
    requires hash.Valid() && powLimit.Valid()
    ensures ok <==> && !Negative(nBits) && !Overflows(nBits) && 0 < Denoted(nBits) <= powLimit.Val()
                    && hash.Val() <= Denoted(nBits)
  {
    hide Pow2, Value, Decoded, Negative, Overflows, Denoted;
    var target := new BaseUint();
    var negative, overflow := SetCompact(target, nBits);
    var isZero := target.EqualTo64(0);
    var c := target.CompareTo(powLimit);
    if negative || isZero || overflow || c > 0 {
      if !overflow {
        TargetHasSuccessor(nBits);
      }
      return false;
    }
    TargetHasSuccessor(nBits);
    c := hash.CompareTo(target);
    return c <= 0;
  }
}
