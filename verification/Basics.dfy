// Small notions that several components share.
module Basics {
  /** A 256-bit hash, read as a number; zero is the null hash. */
  type Hash = nat

  const MAX_BLOCK_SIZE := 1_000_000

  /** Bytes for the number of elements of a vector. */
  function GetSizeOfCompactSize(n: nat): nat
  {
    if n < 253 then 1 else if n <= 0xffff then 3 else if n <= 0xffff_ffff then 5 else 9
  }

  function Min(a: int, b: int): int
  {
    if a < b then a else b
  }

  function Max(a: int, b: int): int
  {
    if a < b then b else a
  }

  ghost predicate NoRepeats<T>(s: seq<T>)
  {
    forall i, j :: 0 <= i < j < |s| ==> s[i] != s[j]
  }

  function Reversed<T>(s: seq<T>): (r: seq<T>)
    ensures |r| == |s|
  {
    if s == [] then [] else [s[|s| - 1]] + Reversed(s[..|s| - 1])
  }

  lemma ReversedMore<T>(s: seq<T>, x: T)
    ensures Reversed(s + [x]) == [x] + Reversed(s)
  {
    assert (s + [x])[..|s|] == s;
  }

  lemma {:induction false} ReversedFront<T>(s: seq<T>, x: T)
    ensures Reversed([x] + s) == Reversed(s) + [x]
  {
    if s == [] {
      assert [x] + s == [] + [x];
      ReversedMore([], x);
    } else {
      var k := |s| - 1;
      assert [x] + s == [x] + s[..k] + [s[k]];
      ReversedMore([x] + s[..k], s[k]);
      ReversedFront(s[..k], x);
      assert s == s[..k] + [s[k]];
      ReversedMore(s[..k], s[k]);
    }
  }

  lemma {:induction false} ReversedTwice<T>(s: seq<T>)
    ensures Reversed(Reversed(s)) == s
  {
    if s != [] {
      var k := |s| - 1;
      ReversedTwice(s[..k]);
      ReversedFront(Reversed(s[..k]), s[k]);
    }
  }
}
