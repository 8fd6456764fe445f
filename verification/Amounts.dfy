// Amounts in their compressed form: trailing decimal zeros become an exponent.
module Amounts {
  import opened Nonlinear

  const TWO64 := 0x1_0000_0000_0000_0000

  // ----- compressing -----

  datatype Scaled = Scaled(n: nat, e: nat)

  /** Up to nine decimal zeros are taken off. */
  function Stripped(n: nat, e: nat): (s: Scaled)
    requires n > 0 && e <= 9
    ensures s.n > 0 && e <= s.e <= 9 && (s.n % 10 == 0 ==> s.e == 9)
  {
    if n % 10 == 0 && e < 9 then Stripped(n / 10, e + 1) else Scaled(n, e)
  }

  /** Mantissa and exponent in one word. */
  function Packed(s: Scaled): nat
    requires s.n > 0 && s.e <= 9 && (s.n % 10 == 0 ==> s.e == 9)
  {
    if s.e < 9 then 1 + (s.n / 10 * 9 + s.n % 10 - 1) * 10 + s.e else 1 + (s.n - 1) * 10 + 9
  }

  function Compressed(n: nat): nat
  {
    if n == 0 then 0 else Packed(Stripped(n, 0))
  }

  method CompressAmount(amount: nat) returns (r: nat)
    requires amount < TWO64
    ensures r == Compressed(amount) % TWO64
  {
    var n := amount;
    if n == 0 {
      return 0;
    }
    var e := 0;
    while n % 10 == 0 && e < 9
      invariant n > 0 && 0 <= e <= 9 && n <= amount && Stripped(n, e) == Stripped(amount, 0)
    {
      n := n / 10;
      e := e + 1;
    }
    if e < 9 {
      var d := n % 10;
      assert 1 <= d <= 9;
      n := n / 10;
      return (1 + (n * 9 + d - 1) * 10 + e) % TWO64;
    } else {
      return (1 + (n - 1) * 10 + 9) % TWO64;
    }
  }

  // ----- decompressing -----

  function TimesTen(n: nat, e: nat): nat
    decreases e
  {
    if e == 0 then n else TimesTen(n * 10, e - 1)
  }

  function Decompressed(x: nat): nat
  {
    if x == 0 then 0
    else
      var y := x - 1;
      var e, z := y % 10, y / 10;
      TimesTen(if e < 9 then z / 9 * 10 + z % 9 + 1 else z + 1, e)
  }

  lemma TenWraps(n: nat)
    ensures n * 10 % TWO64 == n % TWO64 * 10 % TWO64
  {
    var q, r := n / TWO64, n % TWO64;
    DivModUnique(n * 10, TWO64, 10 * q + r * 10 / TWO64, r * 10 % TWO64);
  }

  lemma {:induction false} TimesTenWraps(n: nat, e: nat)
    ensures TimesTen(n, e) % TWO64 == TimesTen(n % TWO64, e) % TWO64
    decreases e
  {
    if e > 0 {
      TimesTenWraps(n * 10, e - 1);
      TimesTenWraps(n % TWO64 * 10, e - 1);
      TenWraps(n);
    }
  }

  method DecompressAmount(amount: nat) returns (r: nat)
    requires amount < TWO64
    ensures r == Decompressed(amount) % TWO64
  {
    if amount == 0 {
      return 0;
    }
    var x := amount - 1;
    var e := x % 10;
    x := x / 10;
    var n := 0;
    if e < 9 {
      var d := x % 9 + 1;
      x := x / 9;
      n := x * 10 + d;
    } else {
      n := x + 1;
    }
    ghost var n0, e0 := n, e;
    while e != 0
      invariant 0 <= e <= 9 && 0 <= n < TWO64
      invariant TimesTen(n, e) % TWO64 == TimesTen(n0, e0) % TWO64
    {
      TimesTenWraps(n * 10, e - 1);
      n := n * 10 % TWO64;
      e := e - 1;
    }
    r := n;
  }

  // ----- the two are inverse -----

  lemma {:induction false} TimesTenOnce(n: nat, e: nat)
    ensures TimesTen(n, e + 1) == TimesTen(n, e) * 10
    decreases e
  {
    if e > 0 {
      TimesTenOnce(n * 10, e - 1);
    }
  }

  lemma {:induction false} StrippedUndone(n: nat, e: nat)
    requires n > 0 && e <= 9
    ensures TimesTen(Stripped(n, e).n, Stripped(n, e).e - e) == n
  {
    if n % 10 == 0 && e < 9 {
      StrippedUndone(n / 10, e + 1);
      var s := Stripped(n, e);
      TimesTenOnce(s.n, s.e - e - 1);
    }
  }

  lemma LastNine(m: nat)
    ensures (m * 10 + 9) % 10 == 9 && (m * 10 + 9) / 10 == m
  {
  }

  // The parts of a compressed word.
  lemma Fields(q: nat, d: nat, e: nat)
    requires d <= 9 && e <= 9
    ensures d > 0 ==> ((q * 9 + d - 1) * 10 + e) % 10 == e && ((q * 9 + d - 1) * 10 + e) / 10 == q * 9 + d - 1
    ensures d > 0 ==> (q * 9 + d - 1) / 9 == q && (q * 9 + d - 1) % 9 == d - 1
  {
  }

  lemma UnpacksTo(s: Scaled)
    requires s.n > 0 && s.e <= 9 && (s.n % 10 == 0 ==> s.e == 9)
    ensures Decompressed(Packed(s)) == TimesTen(s.n, s.e)
  {
    hide TimesTen;
    if s.e < 9 {
      Fields(s.n / 10, s.n % 10, s.e);
    } else {
      LastNine(s.n - 1);
    }
  }

  // Every amount is found again.
  lemma DecompressCompress(n: nat)
    ensures Decompressed(Compressed(n)) == n
  {
    if n > 0 {
      StrippedUndone(n, 0);
      var s := Stripped(n, 0);
      hide Stripped, Packed;
      UnpacksTo(s);
    }
  }

  lemma {:induction false} StripsTens(n: nat, e: nat, k: nat)
    requires n > 0 && k + e <= 9 && (n % 10 != 0 || k + e == 9)
    ensures TimesTen(n, k) > 0 && Stripped(TimesTen(n, k), e) == Scaled(n, k + e)
    decreases k
  {
    if k > 0 {
      TimesTenOnce(n, k - 1);
      StripsTens(n, e + 1, k - 1);
      assert TimesTen(n, k) / 10 == TimesTen(n, k - 1);
    }
  }

  lemma LastDigit(q: nat, d: nat)
    requires 1 <= d <= 9
    ensures (q * 10 + d) / 10 == q && (q * 10 + d) % 10 == d
  {
  }

  // Every word is the compressed form of exactly one amount.
  lemma CompressDecompress(x: nat)
    ensures Compressed(Decompressed(x)) == x
  {
    if x > 0 {
      var e, z := (x - 1) % 10, (x - 1) / 10;
      assert x == 1 + 10 * z + e;
      var q, d := z / 9, z % 9 + 1;
      assert z == 9 * q + d - 1;
      var n := if e < 9 then q * 10 + d else z + 1;
      LastDigit(q, d);
      StripsTens(n, 0, e);
      hide Stripped;
    }
  }

  lemma PackedBound(s: Scaled)
    requires s.n > 0 && s.e <= 9 && (s.n % 10 == 0 ==> s.e == 9)
    ensures Packed(s) <= s.n * 10 + s.e
  {
    assert s.n / 10 * 9 + s.n % 10 <= s.n;
  }

  lemma {:induction false} StrippedSmaller(n: nat, e: nat)
    requires n > 0 && e <= 9
    ensures Stripped(n, e).n <= n && (Stripped(n, e).e > e ==> Stripped(n, e).n * 10 <= n)
  {
    if n % 10 == 0 && e < 9 {
      StrippedSmaller(n / 10, e + 1);
    }
  }

  // No step leaves 64 bits while amounts are below 2^64 / 10.
  lemma AmountFits(n: nat)
    requires n * 10 < TWO64
    ensures Compressed(n) < TWO64
    ensures Compressed(n) % TWO64 == Compressed(n) && Decompressed(Compressed(n)) % TWO64 == n
  {
    DecompressCompress(n);
    if n > 0 {
      StrippedSmaller(n, 0);
      PackedBound(Stripped(n, 0));
    }
    hide Stripped, Packed, Decompressed;
  }
}
