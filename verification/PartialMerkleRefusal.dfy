// Which partial Merkle trees the verifier refuses: none can be made longer or shorter.
module PartialMerkleRefusal {
  import opened Basics
  import opened Nonlinear
  import opened PartialMerkle

  lemma NotBadBefore(H: PairHash, n: nat, bits: seq<bool>, hashes: seq<Hash>, height: nat, pos: nat, c: Cursor)
    requires !Extract(H, n, bits, hashes, height, pos, c).1.bad
    ensures !c.bad
  {
    ExtractGrows(H, n, bits, hashes, height, pos, c);
  }

  // What follows the part that is read makes no difference.
  lemma {:induction false} ExtractSame(H: PairHash, n: nat, bits: seq<bool>, hashes: seq<Hash>, bits': seq<bool>, hashes': seq<Hash>,
                                       height: nat, pos: nat, c: Cursor)
    requires bits <= bits' && hashes <= hashes' && !Extract(H, n, bits, hashes, height, pos, c).1.bad
    ensures Extract(H, n, bits', hashes', height, pos, c) == Extract(H, n, bits, hashes, height, pos, c)
    decreases height
  {
    if c.bitsUsed < |bits| && height > 0 && bits[c.bitsUsed] {
      ExtractInner(H, n, bits, hashes, height, pos, c);
      ExtractInner(H, n, bits', hashes', height, pos, c);
      var c1 := c.(bitsUsed := c.bitsUsed + 1);
      var c2 := Extract(H, n, bits, hashes, height - 1, 2 * pos, c1).1;
      hide Extract;
      if 2 * pos + 1 < Width(n, height - 1) {
        NotBadBefore(H, n, bits, hashes, height - 1, 2 * pos + 1, c2);
        ExtractSame(H, n, bits, hashes, bits', hashes', height - 1, 2 * pos, c1);
        ExtractSame(H, n, bits, hashes, bits', hashes', height - 1, 2 * pos + 1, c2);
      } else {
        ExtractSame(H, n, bits, hashes, bits', hashes', height - 1, 2 * pos, c1);
      }
    }
  }

  lemma AcceptedParts(H: PairHash, n: nat, bits: seq<bool>, hashes: seq<Hash>)
    requires ExtractMatches(H, n, bits, hashes, false).0 != 0
    ensures var (root, c) := Extract(H, n, bits, hashes, RootHeight(n, 0), 0, Cursor(0, 0, [], false));
            && 0 < n <= 16_666 && |hashes| <= n && |hashes| <= |bits| && !c.bad
            && (c.bitsUsed + 7) / 8 == (|bits| + 7) / 8 && c.hashUsed == |hashes|
            && ExtractMatches(H, n, bits, hashes, false) == (root, c.matched)
  {
    hide Extract, RootHeight;
  }

  // Main result on refusals: an accepted tree that gets more flags or hashes is
  // still accepted exactly when these are only padding in the last byte.
  lemma OnlyPaddingIsFree(H: PairHash, n: nat, bits: seq<bool>, hashes: seq<Hash>, bits': seq<bool>, hashes': seq<Hash>)
    requires ExtractMatches(H, n, bits, hashes, false).0 != 0 && bits <= bits' && hashes <= hashes'
    ensures ExtractMatches(H, n, bits', hashes', false).0 != 0 <==> |hashes'| == |hashes| && (|bits'| + 7) / 8 == (|bits| + 7) / 8
    ensures ExtractMatches(H, n, bits', hashes', false).0 != 0 ==>
              ExtractMatches(H, n, bits', hashes', false) == ExtractMatches(H, n, bits, hashes, false)
  {
    AcceptedParts(H, n, bits, hashes);
    ExtractSame(H, n, bits, hashes, bits', hashes', RootHeight(n, 0), 0, Cursor(0, 0, [], false));
    hide Extract, RootHeight;
  }

  // Nothing is read when the numbers cannot be right.
  lemma BoundsAreRefused(H: PairHash, n: nat, bits: seq<bool>, hashes: seq<Hash>, bad: bool)
    requires n == 0 || n > 16_666 || |hashes| > n || |bits| < |hashes|
    ensures ExtractMatches(H, n, bits, hashes, bad) == (0, [])
  {
  }
}
