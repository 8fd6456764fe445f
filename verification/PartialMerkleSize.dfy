// How long a serialised partial Merkle tree is.
module PartialMerkleSize {
  import opened Basics
  import opened Nonlinear
  import opened PartialMerkle
  import opened PartialMerkleRoundTrip

  /** The number of transactions, the hashes, and the flag bits packed in bytes. */
  function SerializedSize(bits: nat, hashes: nat): nat
  {
    4 + GetSizeOfCompactSize(hashes) + 32 * hashes + GetSizeOfCompactSize((bits + 7) / 8) + (bits + 7) / 8
  }

  /** 10 + ceil(32.25 * n) */
  function Promised(hashes: nat): nat
  {
    10 + (129 * hashes + 3) / 4
  }

  /** As many nodes with one child as still fit the promise with that many hashes. */
  function Spare(hashes: nat): int
  {
    8 * ((hashes + 3) / 4) - 2 * hashes + 1
  }

  // The promise leaves room for both lengths in three bytes, and for one flag
  // byte on four hashes.
  lemma SizeByNumbers(bits: nat, hashes: nat, excess: nat)
    requires 1 <= hashes <= 0x8000 && excess <= 15 && bits == 2 * hashes - 1 + excess
    ensures SerializedSize(bits, hashes) <= Promised(hashes) <==> bits <= 2016 || excess <= Spare(hashes)
    ensures hashes <= 1000 ==> bits <= 2016
  {
    var q := (hashes + 3) / 4;
    assert Promised(hashes) == 10 + 32 * hashes + q;
    assert (bits + 7) / 8 <= q + 2;
  }

  lemma {:induction false} RootIsFirst(n: nat, height: nat, k: nat)
    requires height <= k && Width(n, k) <= 1
    ensures RootHeight(n, height) <= k
    ensures (forall i :: height <= i < k ==> Width(n, i) > 1) ==> RootHeight(n, height) == k
    decreases k - height
  {
    hide Width;
    if Width(n, height) > 1 {
      RootIsFirst(n, height + 1, k);
    }
  }

  lemma BlocksAreLow(n: nat)
    requires n <= 0x8000
    ensures RootHeight(n, 0) <= 15
  {
    assert Pow2(15) == 0x8000;
    assert Width(n, 15) <= 1;
    hide Width;
    RootIsFirst(n, 0, 15);
  }

  // The numbers of a whole proof.
  lemma BuiltNumbers(H: PairHash, txids: seq<Hash>, matches: seq<bool>, height: nat)
    requires txids != [] && |matches| == |txids| && |txids| <= 0x8000 && height == RootHeight(|txids|, 0)
    ensures Width(|txids|, height) == 1
    ensures var (bits, hashes) := BuildAll(H, txids, matches);
            && 1 <= |hashes| <= 0x8000 && OneChild(height, 0, |txids|, matches) <= 15
            && |bits| == 2 * |hashes| - 1 + OneChild(height, 0, |txids|, matches)
  {
    RootCoversAll(|txids|, height);
    assert BuildAll(H, txids, matches) == Build(H, height, 0, txids, matches);
    hide *;
    BlocksAreLow(|txids|);
    BuildSize(H, height, 0, txids, matches);
    FlagCount(H, height, 0, txids, matches);
    OneChildPerLevel(height, 0, |txids|, matches);
  }

  // Main result on the size: for every block and every choice of transactions
  // the promise holds exactly when there are few flags, or few nodes with one child.
  lemma SizePromise(H: PairHash, txids: seq<Hash>, matches: seq<bool>)
    requires txids != [] && |matches| == |txids| && |txids| <= MAX_BLOCK_SIZE / 60
    ensures Width(|txids|, RootHeight(|txids|, 0)) == 1
    ensures var (bits, hashes) := BuildAll(H, txids, matches);
            && (SerializedSize(|bits|, |hashes|) <= Promised(|hashes|)
                <==> |bits| <= 2016 || OneChild(RootHeight(|txids|, 0), 0, |txids|, matches) <= Spare(|hashes|))
            && (|hashes| <= 1000 ==> SerializedSize(|bits|, |hashes|) <= Promised(|hashes|))
  {
    assert |txids| <= 0x8000;
    hide *;
    var h := RootHeight(|txids|, 0);
    BuiltNumbers(H, txids, matches, h);
    var (bits, hashes) := BuildAll(H, txids, matches);
    SizeByNumbers(|bits|, |hashes|, OneChild(h, 0, |txids|, matches));
  }

  // ----- a block that breaks the promise -----

  /** How many of the levels below `height` have an odd number of nodes. */
  function OddLevels(n: nat, height: nat): nat
  {
    if height == 0 then 0 else OddLevels(n, height - 1) + Width(n, height - 1) % 2
  }

  lemma AllMatchedParent(n: nat, height: nat, pos: nat, matches: seq<bool>)
    requires |matches| == n && pos < Width(n, height) && forall i :: 0 <= i < n ==> matches[i]
    ensures ParentOfMatch(matches, height, pos)
  {
    NodeHasLeaves(n, height, pos);
    assert matches[First(height, pos)];
  }

  lemma OneChildUnfold(height: nat, pos: nat, n: nat, matches: seq<bool>)
    requires |matches| == n && pos < Width(n, height) && height > 0 && ParentOfMatch(matches, height, pos)
    ensures 2 * pos < Width(n, height - 1)
    ensures OneChild(height, pos, n, matches)
            == OneChild(height - 1, 2 * pos, n, matches) +
               if 2 * pos + 1 < Width(n, height - 1) then OneChild(height - 1, 2 * pos + 1, n, matches) else 1
  {
    LeftChildExists(n, height, pos);
    hide Width, ParentOfMatch;
  }

  lemma OddLevelsUnfold(n: nat, height: nat)
    requires height > 0
    ensures Width(n, height) == (Width(n, height - 1) + 1) / 2
    ensures OddLevels(n, height) == OddLevels(n, height - 1) + Width(n, height - 1) % 2
  {
    WidthHalves(n, height);
  }

  lemma LastChild(w: nat, below: nat)
    requires w == (below + 1) / 2 && w > 0
    ensures below > 0
    ensures if below % 2 == 0 then 2 * (w - 1) + 1 == below - 1 else 2 * (w - 1) == below - 1
  {
  }

  lemma LastOneChild(n: nat, height: nat, matches: seq<bool>)
    requires |matches| == n && height > 0 && Width(n, height) > 0 && forall i :: 0 <= i < n ==> matches[i]
    ensures Width(n, height - 1) > 0
    ensures OneChild(height, Width(n, height) - 1, n, matches)
            == OneChild(height - 1, Width(n, height - 1) - 1, n, matches) + Width(n, height - 1) % 2
  {
    var w, below := Width(n, height), Width(n, height - 1);
    var pos := w - 1;
    AllMatchedParent(n, height, pos, matches);
    hide *;
    OddLevelsUnfold(n, height);
    LastChild(w, below);
    OneChildUnfold(height, pos, n, matches);
    if below % 2 == 0 {
      OneChildPerLevel(height - 1, 2 * pos, n, matches);
    }
  }

  // With everything matched, the last node of a level has one child exactly
  // when the level below is odd.
  lemma {:induction false} AllMatchedOneChild(n: nat, height: nat, matches: seq<bool>)
    requires |matches| == n && Width(n, height) > 0 && forall i :: 0 <= i < n ==> matches[i]
    ensures OneChild(height, Width(n, height) - 1, n, matches) == OddLevels(n, height)
    decreases height
  {
    hide Width, ParentOfMatch;
    if height > 0 {
      LastOneChild(n, height, matches);
      AllMatchedOneChild(n, height - 1, matches);
      hide OneChild;
    }
  }

  // All leaves are written.
  lemma {:induction false} AllMatchedHashes(H: PairHash, height: nat, pos: nat, txids: seq<Hash>, matches: seq<bool>)
    requires |matches| == |txids| && pos < Width(|txids|, height) && forall i :: 0 <= i < |txids| ==> matches[i]
    ensures |Build(H, height, pos, txids, matches).1| == Last(|txids|, height, pos) - First(height, pos)
    decreases height
  {
    AllMatchedParent(|txids|, height, pos, matches);
    NodeHasLeaves(|txids|, height, pos);
    BuildUnfold(H, height, pos, txids, matches);
    hide Width, ParentOfMatch, CalcHash, First, Last, Build;
    if height > 0 {
      LeavesSplit(|txids|, height, pos);
      AllMatchedHashes(H, height - 1, 2 * pos, txids, matches);
      if 2 * pos + 1 < Width(|txids|, height - 1) {
        AllMatchedHashes(H, height - 1, 2 * pos + 1, txids, matches);
      }
    }
  }

  lemma Level(n: nat, height: nat, width: nat, odd: nat)
    requires height > 0 && Width(n, height - 1) == width > 1 && OddLevels(n, height - 1) == odd
    requires forall i :: 0 <= i < height - 1 ==> Width(n, i) > 1
    ensures Width(n, height) == (width + 1) / 2 && OddLevels(n, height) == odd + width % 2
    ensures forall i :: 0 <= i < height ==> Width(n, i) > 1
  {
    OddLevelsUnfold(n, height);
    hide *;
  }

  lemma LeafLevel(n: nat)
    ensures Width(n, 0) == n && OddLevels(n, 0) == 0
  {
    assert Pow2(0) == 1;
  }

  lemma WidthsOf1028(n: nat)
    requires n == 1028
    ensures Width(n, 11) == 1 && OddLevels(n, 11) == 8 && forall i :: 0 <= i < 11 ==> Width(n, i) > 1
  {
    LeafLevel(n);
    hide *;
    Level(n, 1, 1028, 0);
    Level(n, 2, 514, 0);
    Level(n, 3, 257, 0);
    Level(n, 4, 129, 1);
    Level(n, 5, 65, 2);
    Level(n, 6, 33, 3);
    Level(n, 7, 17, 4);
    Level(n, 8, 9, 5);
    Level(n, 9, 5, 6);
    Level(n, 10, 3, 7);
    Level(n, 11, 2, 8);
  }

  lemma BuildsFrom(H: PairHash, txids: seq<Hash>, matches: seq<bool>, height: nat)
    requires txids != [] && |matches| == |txids| && RootHeight(|txids|, 0) == height && Width(|txids|, height) == 1
    ensures BuildAll(H, txids, matches) == Build(H, height, 0, txids, matches)
  {
  }

  lemma SizesOf1028()
    ensures SerializedSize(2063, 1028) == Promised(1028) + 1
  {
  }

  // A block of 1028 transactions that all match takes one byte more than promised.
  lemma AllOf1028BreakThePromise(H: PairHash, txids: seq<Hash>, matches: seq<bool>)
    requires |txids| == |matches| == 1028 && forall i :: 0 <= i < |matches| ==> matches[i]
    ensures var (bits, hashes) := BuildAll(H, txids, matches);
            |hashes| == 1028 && |bits| == 2063 && SerializedSize(|bits|, |hashes|) == Promised(|hashes|) + 1
  {
    var n := |txids|;
    hide *;
    WidthsOf1028(n);
    RootIsFirst(n, 0, 11);
    RootCoversAll(n, 11);
    AllMatchedHashes(H, 11, 0, txids, matches);
    AllMatchedOneChild(n, 11, matches);
    FlagCount(H, 11, 0, txids, matches);
    SizesOf1028();
    BuildsFrom(H, txids, matches, 11);
  }
}
