// The Merkle tree of a block, level by level: it has the root that partial trees
// prove against, and tells lists apart that have one root.
module MerkleTree {
  import opened Basics
  import opened Nonlinear
  import opened PartialMerkle

  /** The level above: neighbours are hashed together, and an odd last one with itself. */
  function Above(H: PairHash, level: seq<Hash>): (r: seq<Hash>)
    ensures |r| == (|level| + 1) / 2
  {
    seq((|level| + 1) / 2, i requires 0 <= i < (|level| + 1) / 2 => H(level[2 * i], level[Min(2 * i + 1, |level| - 1)]))
  }

  function RootOf(H: PairHash, level: seq<Hash>): Hash
    requires level != []
    decreases |level|
  {
    if |level| == 1 then level[0] else RootOf(H, Above(H, level))
  }

  /** The last two of an even number of hashes are the same. */
  predicate EndsTwice(level: seq<Hash>)
  {
    level != [] && |level| % 2 == 0 && level[|level| - 1] == level[|level| - 2]
  }

  /** Some level with more than one hash ends twice. */
  predicate Mutated(H: PairHash, level: seq<Hash>)
    decreases |level|
  {
    |level| > 1 && (EndsTwice(level) || Mutated(H, Above(H, level)))
  }

  // ----- the loops -----

  /** One level: the next one is appended to the tree. */
  method BuildLevel(H: PairHash, tree: seq<Hash>, j: nat, nSize: nat) returns (tree': seq<Hash>, twice: bool)
    requires j + nSize == |tree| && nSize > 1
    ensures tree' == tree + Above(H, tree[j..]) && (twice <==> EndsTwice(tree[j..]))
  {
    tree', twice := tree, false;
    ghost var level := tree[j..];
    var i := 0;
    while i < nSize
      invariant 0 <= i <= nSize + 1 && i % 2 == 0
      invariant tree' == tree + Above(H, level)[..i / 2]
      invariant twice <==> i >= nSize && EndsTwice(level)
    {
      var i2 := Min(i + 1, nSize - 1);
      assert tree'[j + i] == level[i] && tree'[j + i2] == level[i2];
      if i2 == i + 1 && i2 + 1 == nSize && tree'[j + i] == tree'[j + i2] {
        twice := true;
      }
      tree' := tree' + [H(tree'[j + i], tree'[j + i2])];
      assert Above(H, level)[..i / 2 + 1] == Above(H, level)[..i / 2] + [Above(H, level)[i / 2]];
      i := i + 2;
    }
    assert Above(H, level)[..i / 2] == Above(H, level);
  }

  /** The root, or zero without transactions, and whether some level ends twice. */
  method BuildMerkleTree(H: PairHash, txids: seq<Hash>) returns (root: Hash, mutated: bool)
    ensures root == (if txids == [] then 0 else RootOf(H, txids)) && (mutated <==> Mutated(H, txids))
  {
    var tree, j, nSize := txids, 0, |txids|;
    mutated := false;
    while nSize > 1
      invariant 0 <= j && 0 <= nSize && j + nSize == |tree| && (nSize == 0 <==> txids == []) && (txids == [] ==> tree == [])
      invariant txids != [] ==> RootOf(H, tree[j..]) == RootOf(H, txids)
      invariant Mutated(H, txids) <==> mutated || Mutated(H, tree[j..])
      decreases nSize
    {
      ghost var level := tree[j..];
      var twice;
      tree, twice := BuildLevel(H, tree, j, nSize);
      mutated := mutated || twice;
      j, nSize := j + nSize, (nSize + 1) / 2;
      assert tree[j..] == Above(H, level);
    }
    root := if tree == [] then 0 else tree[|tree| - 1];
  }

  // ----- the same root as for partial trees -----

  function Level(H: PairHash, leaves: seq<Hash>, height: nat): seq<Hash>
  {
    if height == 0 then leaves else Above(H, Level(H, leaves, height - 1))
  }

  lemma LeavesWide(n: nat)
    ensures Width(n, 0) == n
  {
    assert Pow2(0) == 1;
  }

  lemma LevelNext(H: PairHash, leaves: seq<Hash>, height: nat)
    ensures height > 0 ==>
              && Level(H, leaves, height) == Above(H, Level(H, leaves, height - 1))
              && |Level(H, leaves, height)| == (|Level(H, leaves, height - 1)| + 1) / 2
    ensures Level(H, leaves, 0) == leaves
  {
  }

  lemma AboveAt(H: PairHash, level: seq<Hash>, i: nat)
    requires i < (|level| + 1) / 2
    ensures 2 * i < |level|
    ensures Above(H, level)[i] == H(level[2 * i], if 2 * i + 1 < |level| then level[2 * i + 1] else level[2 * i])
  {
  }

  lemma {:induction false} LevelWide(H: PairHash, leaves: seq<Hash>, height: nat)
    ensures |Level(H, leaves, height)| == Width(|leaves|, height)
  {
    hide *;
    LevelNext(H, leaves, height);
    if height == 0 {
      LeavesWide(|leaves|);
    } else {
      LevelWide(H, leaves, height - 1);
      WidthHalves(|leaves|, height);
    }
  }

  // The hash of a node is the one at its place in its level.
  lemma {:induction false} NodeInLevel(H: PairHash, height: nat, pos: nat, txids: seq<Hash>)
    requires pos < Width(|txids|, height)
    ensures pos < |Level(H, txids, height)| && CalcHash(H, height, pos, txids) == Level(H, txids, height)[pos]
  {
    hide *;
    LevelNext(H, txids, height);
    LevelWide(H, txids, height);
    if height == 0 {
      LeavesWide(|txids|);
      LeafHash(H, pos, txids);
    } else {
      LevelWide(H, txids, height - 1);
      AboveAt(H, Level(H, txids, height - 1), pos);
      CalcHashInner(H, height, pos, txids);
      NodeInLevel(H, height - 1, 2 * pos, txids);
      if 2 * pos + 1 < Width(|txids|, height - 1) {
        NodeInLevel(H, height - 1, 2 * pos + 1, txids);
      }
    }
  }

  lemma RootNext(H: PairHash, level: seq<Hash>)
    requires |level| > 1
    ensures RootOf(H, level) == RootOf(H, Above(H, level))
  {
  }

  lemma WidthIsPositive(n: nat, height: nat)
    requires n > 0
    ensures Width(n, height) > 0
  {
    WidthCounts(n, height, 0);
  }

  lemma {:induction false} WideBelowRoot(n: nat, from: nat, height: nat)
    requires from <= height < RootHeight(n, from)
    ensures Width(n, height) > 1
    decreases height - from
  {
    hide Width;
    if from < height {
      WideBelowRoot(n, from + 1, height);
    }
  }

  lemma {:induction false} RootFromLevel(H: PairHash, leaves: seq<Hash>, height: nat)
    requires leaves != [] && height <= RootHeight(|leaves|, 0)
    ensures Level(H, leaves, height) != [] && RootOf(H, Level(H, leaves, height)) == RootOf(H, leaves)
  {
    hide *;
    LevelNext(H, leaves, height);
    LevelWide(H, leaves, height);
    WidthIsPositive(|leaves|, height);
    if height > 0 {
      LevelWide(H, leaves, height - 1);
      WideBelowRoot(|leaves|, 0, height - 1);
      RootNext(H, Level(H, leaves, height - 1));
      RootFromLevel(H, leaves, height - 1);
    }
  }

  // Main result on roots: proofs against the root of a partial tree are proofs
  // against the root in the header of the block.
  lemma SameRoot(H: PairHash, txids: seq<Hash>)
    requires txids != []
    ensures MerkleRoot(H, txids) == RootOf(H, txids)
  {
    var h := RootHeight(|txids|, 0);
    RootCoversAll(|txids|, h);
    hide Width, RootHeight;
    NodeInLevel(H, h, 0, txids);
    LevelWide(H, txids, h);
    RootFromLevel(H, txids, h);
  }

  // ----- lists with one root -----

  lemma PairsEqual(H: PairHash, s: seq<Hash>, t: seq<Hash>, i: nat)
    requires Injective(H) && Above(H, s) == Above(H, t) && i < |Above(H, s)|
    ensures s[2 * i] == t[2 * i] && s[Min(2 * i + 1, |s| - 1)] == t[Min(2 * i + 1, |t| - 1)]
  {
    assert Above(H, s)[i] == Above(H, t)[i];
  }

  // One level tells what is below, unless a level below ends twice.
  lemma SameBelow(H: PairHash, s: seq<Hash>, t: seq<Hash>)
    requires Injective(H) && Above(H, s) == Above(H, t) && !EndsTwice(s) && !EndsTwice(t)
    ensures s == t
  {
    var n := (|s| + 1) / 2;
    assert n == |Above(H, s)| == |Above(H, t)|;
    if n > 0 {
      PairsEqual(H, s, t, n - 1);
    }
    assert |s| == |t|;
    forall k | 0 <= k < |s| ensures s[k] == t[k] {
      PairsEqual(H, s, t, k / 2);
    }
  }

  /** How many levels there are above one of `n` hashes. */
  function LevelsAbove(n: nat): nat
  {
    if n <= 1 then 0 else 1 + LevelsAbove((n + 1) / 2)
  }

  // Main result on mutation: of two different lists with as many levels and one
  // root, the check finds one to be mutated.
  lemma {:induction false} MutationIsFound(H: PairHash, s: seq<Hash>, t: seq<Hash>)
    requires Injective(H) && s != [] && t != [] && LevelsAbove(|s|) == LevelsAbove(|t|)
    requires RootOf(H, s) == RootOf(H, t) && !Mutated(H, s) && !Mutated(H, t)
    ensures s == t
    decreases |s|
  {
    if |s| > 1 {
      MutationIsFound(H, Above(H, s), Above(H, t));
      SameBelow(H, s, t);
    }
  }

  lemma AboveSix(H: PairHash, s: seq<Hash>, t: seq<Hash>)
    requires |s| == 6 && t == s + s[4..]
    ensures |Above(H, s)| == 3 && Above(H, t) == Above(H, s) + [Above(H, s)[2]]
  {
    AboveAt(H, s, 2);
    AboveAt(H, t, 2);
    AboveAt(H, t, 3);
    forall i | 0 <= i < 2 ensures Above(H, t)[i] == Above(H, s)[i] {
      AboveAt(H, s, i);
      AboveAt(H, t, i);
    }
    hide Above;
  }

  lemma AboveThree(H: PairHash, s: seq<Hash>, t: seq<Hash>)
    requires |s| == 3 && t == s + [s[2]]
    ensures Above(H, t) == Above(H, s) && EndsTwice(t)
  {
    AboveAt(H, s, 0);
    AboveAt(H, t, 0);
    AboveAt(H, s, 1);
    AboveAt(H, t, 1);
    hide Above;
  }

  // It does happen: six hashes, and the same with the last two repeated.
  lemma RepeatedEndHasSameRoot(H: PairHash, s: seq<Hash>)
    requires |s| == 6
    ensures RootOf(H, s + s[4..]) == RootOf(H, s) && Mutated(H, s + s[4..])
  {
    var t := s + s[4..];
    AboveSix(H, s, t);
    AboveThree(H, Above(H, s), Above(H, t));
    assert |t| == 8 && |Above(H, t)| == 4;
    assert Mutated(H, Above(H, t));
    assert Mutated(H, t);
    hide RootOf, Above, Mutated;
    RootNext(H, s);
    RootNext(H, t);
    RootNext(H, Above(H, s));
    RootNext(H, Above(H, t));
  }
}
