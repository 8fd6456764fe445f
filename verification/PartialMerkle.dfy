// The partial Merkle tree of BIP 37: a prover that writes flag bits and
// hashes, and a verifier that reads them back.
module PartialMerkle {
  import opened Nonlinear
  import opened Basics

  /** A 256-bit hash; zero stands for failure. */
  type PairHash = (Hash, Hash) -> Hash

  ghost predicate Injective(H: PairHash)
  {
    forall a, b, c, d :: H(a, b) == H(c, d) ==> a == c && b == d
  }

  // ----- the shape of the tree -----

  /** Number of nodes at a height: `n` leaves in groups of `2^height`, rounded up. */
  function Width(n: nat, height: nat): nat
  {
    (n + Pow2(height) - 1) / Pow2(height)
  }

  lemma CeilCounts(n: nat, p: nat, pos: nat)
    requires p > 0
    ensures pos < (n + p - 1) / p <==> pos * p < n
  {
    var q, r := (n + p - 1) / p, (n + p - 1) % p;
    assert n + p - 1 == p * q + r;
    if pos < q {
      MulMonotonic(p, pos, q - 1);
      Distribute(p, q, -1);
    } else {
      MulMonotonic(p, q, pos);
    }
  }

  /** A node exists exactly when it has a leaf below it. */
  lemma WidthCounts(n: nat, height: nat, pos: nat)
    ensures pos < Width(n, height) <==> pos * Pow2(height) < n
  {
    CeilCounts(n, Pow2(height), pos);
  }

  lemma ChildPositions(height: nat, pos: nat)
    requires height > 0
    ensures 2 * pos * Pow2(height - 1) == pos * Pow2(height)
    ensures (2 * pos + 1) * Pow2(height - 1) == pos * Pow2(height) + Pow2(height - 1)
    ensures (2 * pos + 2) * Pow2(height - 1) == (pos + 1) * Pow2(height)
  {
    var p := Pow2(height - 1);
    assert Pow2(height) == 2 * p;
    Distribute(p, 2 * pos, 1);
    Distribute(p, 2 * pos, 2);
    Distribute(2 * p, pos, 1);
    assert 2 * pos * p == pos * (2 * p);
  }

  lemma LeftChildExists(n: nat, height: nat, pos: nat)
    requires height > 0 && pos < Width(n, height)
    ensures 2 * pos < Width(n, height - 1)
  {
    WidthCounts(n, height, pos);
    WidthCounts(n, height - 1, 2 * pos);
    ChildPositions(height, pos);
  }

  lemma WidthHalves(n: nat, height: nat)
    requires height > 0
    ensures Width(n, height) == (Width(n, height - 1) + 1) / 2
  {
    var w, below := Width(n, height), Width(n, height - 1);
    hide Width;
    WidthCounts(n, height, w);
    WidthCounts(n, height - 1, 2 * w);
    ChildPositions(height, w);
    if w > 0 {
      LeftChildExists(n, height, w - 1);
    }
  }

  lemma WidthShrinks(n: nat, height: nat)
    requires Width(n, height) > 1
    ensures Width(n, height + 1) < Width(n, height)
  {
    var w, w' := Width(n, height), Width(n, height + 1);
    if w' > 0 {
      WidthCounts(n, height + 1, w' - 1);
      ChildPositions(height + 1, w' - 1);
      WidthCounts(n, height, 2 * (w' - 1));
    }
  }

  /** The first height, from `height` on, with a single node. */
  function RootHeight(n: nat, height: nat): (h: nat)
    ensures Width(n, h) <= 1
    decreases Width(n, height)
  {
    if Width(n, height) > 1 then
      WidthShrinks(n, height);
      RootHeight(n, height + 1)
    else height
  }

  method FindHeight(n: nat) returns (height: nat)
    ensures height == RootHeight(n, 0)
  {
    height := 0;
    while Width(n, height) > 1
      invariant RootHeight(n, height) == RootHeight(n, 0)
      decreases Width(n, height)
    {
      WidthShrinks(n, height);
      height := height + 1;
    }
  }

  /** The leaves below a node are those from `First` up to `Last`. */
  function First(height: nat, pos: nat): nat
  {
    pos * Pow2(height)
  }

  function Last(n: nat, height: nat, pos: nat): nat
  {
    Min((pos + 1) * Pow2(height), n)
  }

  lemma NodeHasLeaves(n: nat, height: nat, pos: nat)
    requires pos < Width(n, height)
    ensures First(height, pos) < Last(n, height, pos) <= n
    ensures height == 0 ==> First(height, pos) == pos && Last(n, height, pos) == pos + 1
  {
    WidthCounts(n, height, pos);
    Distribute(Pow2(height), pos, 1);
  }

  // The leaves of a node are those of its children, one after the other.
  lemma LeavesSplit(n: nat, height: nat, pos: nat)
    requires height > 0 && pos < Width(n, height)
    ensures First(height - 1, 2 * pos) == First(height, pos)
    ensures if 2 * pos + 1 < Width(n, height - 1)
            then Last(n, height - 1, 2 * pos) == First(height - 1, 2 * pos + 1) &&
                 Last(n, height - 1, 2 * pos + 1) == Last(n, height, pos)
            else Last(n, height - 1, 2 * pos) == Last(n, height, pos)
  {
    ChildPositions(height, pos);
    WidthCounts(n, height, pos);
    WidthCounts(n, height - 1, 2 * pos + 1);
  }

  lemma RootCoversAll(n: nat, height: nat)
    requires n > 0 && Width(n, height) <= 1
    ensures Width(n, height) == 1 && First(height, 0) == 0 && Last(n, height, 0) == n
  {
    WidthCounts(n, height, 0);
    WidthCounts(n, height, 1);
  }

  // ----- node hashes -----

  function CalcHash(H: PairHash, height: nat, pos: nat, txids: seq<Hash>): Hash
    requires pos < Width(|txids|, height)
    decreases height
  {
    if height == 0 then
      NodeHasLeaves(|txids|, 0, pos);
      txids[pos]
    else
      LeftChildExists(|txids|, height, pos);
      var left := CalcHash(H, height - 1, 2 * pos, txids);
      var right := if 2 * pos + 1 < Width(|txids|, height - 1) then CalcHash(H, height - 1, 2 * pos + 1, txids) else left;
      H(left, right)
  }

  /** The root over all leaves. */
  function MerkleRoot(H: PairHash, txids: seq<Hash>): Hash
    requires txids != []
  {
    RootCoversAll(|txids|, RootHeight(|txids|, 0));
    CalcHash(H, RootHeight(|txids|, 0), 0, txids)
  }

  predicate Distinct(txids: seq<Hash>)
  {
    forall i, j :: 0 <= i < j < |txids| ==> txids[i] != txids[j]
  }

  // Different nodes of one level have different hashes.
  lemma {:induction false} NodesDiffer(H: PairHash, height: nat, pos: nat, pos': nat, txids: seq<Hash>)
    requires Injective(H) && Distinct(txids)
    requires pos < pos' < Width(|txids|, height)
    ensures CalcHash(H, height, pos, txids) != CalcHash(H, height, pos', txids)
    decreases height
  {
    if height == 0 {
      NodeHasLeaves(|txids|, 0, pos');
    } else {
      LeftChildExists(|txids|, height, pos);
      LeftChildExists(|txids|, height, pos');
      NodesDiffer(H, height - 1, 2 * pos, 2 * pos', txids);
    }
  }

  // ----- the prover -----

  predicate ParentOfMatch(matches: seq<bool>, height: nat, pos: nat)
    requires pos < Width(|matches|, height)
  {
    exists p :: First(height, pos) <= p < Last(|matches|, height, pos) && matches[p]
  }

  /** The flag bits and hashes that the prover writes for a node. */
  function Build(H: PairHash, height: nat, pos: nat, txids: seq<Hash>, matches: seq<bool>): (r: (seq<bool>, seq<Hash>))
    requires |matches| == |txids| && pos < Width(|txids|, height)
    decreases height
  {
    var flag := ParentOfMatch(matches, height, pos);
    if height == 0 || !flag then ([flag], [CalcHash(H, height, pos, txids)])
    else
      LeftChildExists(|txids|, height, pos);
      var (bits, hashes) := Build(H, height - 1, 2 * pos, txids, matches);
      if 2 * pos + 1 < Width(|txids|, height - 1) then
        var (bits', hashes') := Build(H, height - 1, 2 * pos + 1, txids, matches);
        ([flag] + bits + bits', hashes + hashes')
      else ([flag] + bits, hashes)
  }

  lemma BuildUnfold(H: PairHash, height: nat, pos: nat, txids: seq<Hash>, matches: seq<bool>)
    requires |matches| == |txids| && pos < Width(|txids|, height)
    ensures var flag := ParentOfMatch(matches, height, pos);
            if height == 0 || !flag then
              Build(H, height, pos, txids, matches) == ([flag], [CalcHash(H, height, pos, txids)])
            else
              && 2 * pos < Width(|txids|, height - 1)
              && var (b1, h1) := Build(H, height - 1, 2 * pos, txids, matches);
                 if 2 * pos + 1 < Width(|txids|, height - 1) then
                   var (b2, h2) := Build(H, height - 1, 2 * pos + 1, txids, matches);
                   Build(H, height, pos, txids, matches) == ([true] + b1 + b2, h1 + h2)
                 else Build(H, height, pos, txids, matches) == ([true] + b1, h1)
  {
    hide ParentOfMatch, CalcHash;
    if height > 0 {
      LeftChildExists(|txids|, height, pos);
    }
  }

  // ----- the verifier -----

  /** How much was read, what was matched, and whether anything was wrong. */
  datatype Cursor = Cursor(bitsUsed: nat, hashUsed: nat, matched: seq<Hash>, bad: bool)

  function Extract(H: PairHash, n: nat, bits: seq<bool>, hashes: seq<Hash>, height: nat, pos: nat, c: Cursor): (Hash, Cursor)
    decreases height
  {
    if c.bitsUsed >= |bits| then (0, c.(bad := true))
    else
      var flag := bits[c.bitsUsed];
      var c1 := c.(bitsUsed := c.bitsUsed + 1);
      if height == 0 || !flag then
        if c1.hashUsed >= |hashes| then (0, c1.(bad := true))
        else
          var hash := hashes[c1.hashUsed];
          (hash, c1.(hashUsed := c1.hashUsed + 1, matched := if height == 0 && flag then c1.matched + [hash] else c1.matched))
      else
        var (left, c2) := Extract(H, n, bits, hashes, height - 1, 2 * pos, c1);
        if 2 * pos + 1 < Width(n, height - 1) then
          var (right, c3) := Extract(H, n, bits, hashes, height - 1, 2 * pos + 1, c2);
          (H(left, right), if right == left then c3.(bad := true) else c3)
        else (H(left, left), c2)
  }

  // One inner node at a time, read and computed.
  lemma ExtractInner(H: PairHash, n: nat, bits: seq<bool>, hashes: seq<Hash>, height: nat, pos: nat, c: Cursor)
    requires height > 0 && c.bitsUsed < |bits| && bits[c.bitsUsed]
    ensures var (left, c2) := Extract(H, n, bits, hashes, height - 1, 2 * pos, c.(bitsUsed := c.bitsUsed + 1));
            Extract(H, n, bits, hashes, height, pos, c)
            == if 2 * pos + 1 < Width(n, height - 1) then
                 var (right, c3) := Extract(H, n, bits, hashes, height - 1, 2 * pos + 1, c2);
                 (H(left, right), if right == left then c3.(bad := true) else c3)
               else (H(left, left), c2)
  {
  }

  lemma ExtractStop(H: PairHash, n: nat, bits: seq<bool>, hashes: seq<Hash>, height: nat, pos: nat, c: Cursor)
    requires height == 0 || c.bitsUsed >= |bits| || !bits[c.bitsUsed]
    ensures var (hash, c') := Extract(H, n, bits, hashes, height, pos, c);
            if c.bitsUsed >= |bits| || c.hashUsed >= |hashes| then c'.bad && c'.matched == c.matched
            else hash == hashes[c.hashUsed] &&
                 c' == Cursor(c.bitsUsed + 1, c.hashUsed + 1,
                              if height == 0 && bits[c.bitsUsed] then c.matched + [hash] else c.matched, c.bad)
  {
  }

  lemma CalcHashInner(H: PairHash, height: nat, pos: nat, txids: seq<Hash>)
    requires height > 0 && pos < Width(|txids|, height)
    ensures 2 * pos < Width(|txids|, height - 1)
    ensures var left := CalcHash(H, height - 1, 2 * pos, txids);
            CalcHash(H, height, pos, txids)
            == H(left, if 2 * pos + 1 < Width(|txids|, height - 1) then CalcHash(H, height - 1, 2 * pos + 1, txids) else left)
  {
    LeftChildExists(|txids|, height, pos);
  }

  /** The root, or zero when something is wrong, and what was matched. */
  function ExtractMatches(H: PairHash, n: nat, bits: seq<bool>, hashes: seq<Hash>, bad: bool): (Hash, seq<Hash>)
  {
    if n == 0 || n > MAX_BLOCK_SIZE / 60 || |hashes| > n || |bits| < |hashes| then (0, [])
    else
      var (root, c) := Extract(H, n, bits, hashes, RootHeight(n, 0), 0, Cursor(0, 0, [], bad));
      if c.bad || (c.bitsUsed + 7) / 8 != (|bits| + 7) / 8 || c.hashUsed != |hashes| then (0, c.matched)
      else (root, c.matched)
  }

  // ----- soundness -----

  /** `s` is what is left of `t` after dropping some elements. */
  predicate IsSubsequence(s: seq<Hash>, t: seq<Hash>)
  {
    s == [] || (t != [] && ((s[|s| - 1] == t[|t| - 1] && IsSubsequence(s[..|s| - 1], t[..|t| - 1]))
                            || IsSubsequence(s, t[..|t| - 1])))
  }

  lemma {:induction false} SubsequenceConcat(s: seq<Hash>, t: seq<Hash>, s': seq<Hash>, t': seq<Hash>)
    requires IsSubsequence(s, t) && IsSubsequence(s', t')
    ensures IsSubsequence(s + s', t + t')
    decreases |t'|
  {
    if t' == [] {
      assert s' == [] && s + s' == s && t + t' == t;
    } else {
      var k := |t'| - 1;
      assert (t + t')[..|t + t'| - 1] == t + t'[..k];
      if s' == [] {
        SubsequenceConcat(s, t, s', t'[..k]);
        assert s + s' == s;
      } else if s'[|s'| - 1] == t'[k] && IsSubsequence(s'[..|s'| - 1], t'[..k]) {
        SubsequenceConcat(s, t, s'[..|s'| - 1], t'[..k]);
        assert (s + s')[..|s + s'| - 1] == s + s'[..|s'| - 1];
      } else {
        SubsequenceConcat(s, t, s', t'[..k]);
      }
    }
  }

  lemma {:induction false} SubsequenceMembers(s: seq<Hash>, t: seq<Hash>)
    requires IsSubsequence(s, t)
    ensures forall x :: x in s ==> x in t
    decreases |t|
  {
    if s != [] {
      if s[|s| - 1] == t[|t| - 1] && IsSubsequence(s[..|s| - 1], t[..|t| - 1]) {
        SubsequenceMembers(s[..|s| - 1], t[..|t| - 1]);
        assert s == s[..|s| - 1] + [s[|s| - 1]];
      } else {
        SubsequenceMembers(s, t[..|t| - 1]);
      }
    }
  }

  // The verifier only ever adds to what it matched, and never forgets an error.
  /** The reader went on from `c` to `c'`. */
  predicate Later(c: Cursor, c': Cursor)
  {
    c.matched <= c'.matched && (c.bad ==> c'.bad)
  }

  lemma LaterTwice(c: Cursor, c1: Cursor, c2: Cursor)
    requires Later(c, c1) && Later(c1, c2)
    ensures Later(c, c2) && Later(c, c2.(bad := true))
  {
  }

  lemma {:induction false} ExtractGrows(H: PairHash, n: nat, bits: seq<bool>, hashes: seq<Hash>, height: nat, pos: nat, c: Cursor)
    ensures Later(c, Extract(H, n, bits, hashes, height, pos, c).1)
    decreases height
  {
    if c.bitsUsed < |bits| && height > 0 && bits[c.bitsUsed] {
      var c1 := c.(bitsUsed := c.bitsUsed + 1);
      assert Later(c, c1);
      hide Later;
      ExtractGrows(H, n, bits, hashes, height - 1, 2 * pos, c1);
      var c2 := Extract(H, n, bits, hashes, height - 1, 2 * pos, c1).1;
      ExtractGrows(H, n, bits, hashes, height - 1, 2 * pos + 1, c2);
      LaterTwice(c, c1, c2);
      LaterTwice(c, c2, Extract(H, n, bits, hashes, height - 1, 2 * pos + 1, c2).1);
      ExtractInner(H, n, bits, hashes, height, pos, c);
    }
  }

  /** What a node added to the matches is a part of the leaves below it, in order. */
  predicate AddedFrom(c: Cursor, c': Cursor, leaves: seq<Hash>)
  {
    c.matched <= c'.matched && IsSubsequence(c'.matched[|c.matched|..], leaves)
  }

  lemma AddedFromBoth(c: Cursor, c1: Cursor, c2: Cursor, txids: seq<Hash>, lo: nat, mid: nat, hi: nat)
    requires lo <= mid <= hi <= |txids|
    requires AddedFrom(c, c1, txids[lo..mid]) && AddedFrom(c1, c2, txids[mid..hi])
    ensures AddedFrom(c, c2, txids[lo..hi])
  {
    SubsequenceConcat(c1.matched[|c.matched|..], txids[lo..mid], c2.matched[|c1.matched|..], txids[mid..hi]);
    assert c2.matched[|c.matched|..] == c1.matched[|c.matched|..] + c2.matched[|c1.matched|..];
    assert txids[lo..hi] == txids[lo..mid] + txids[mid..hi];
  }

  lemma AddedLeaf(c: Cursor, c': Cursor, leaf: Hash)
    requires c'.matched == c.matched || c'.matched == c.matched + [leaf]
    ensures AddedFrom(c, c', [leaf])
  {
    var got := c'.matched[|c.matched|..];
    assert got == [] || (got == [leaf] && got[..0] == []);
  }

  lemma AddedNothing(c: Cursor, c': Cursor, leaves: seq<Hash>)
    requires c'.matched == c.matched
    ensures AddedFrom(c, c', leaves)
  {
    assert c'.matched[|c.matched|..] == [];
  }

  lemma LeafHash(H: PairHash, pos: nat, txids: seq<Hash>)
    requires pos < Width(|txids|, 0)
    ensures pos < |txids| && CalcHash(H, 0, pos, txids) == txids[pos]
  {
    NodeHasLeaves(|txids|, 0, pos);
  }

  lemma AddedAfterFlag(c: Cursor, c1: Cursor)
    requires c1.matched == c.matched
    ensures forall c', leaves :: AddedFrom(c1, c', leaves) == AddedFrom(c, c', leaves)
  {
  }

  // A node whose hash is the true one yields only leaves that are really below it, in order.
  lemma {:induction false} ExtractSound(H: PairHash, bits: seq<bool>, hashes: seq<Hash>, height: nat, pos: nat, c: Cursor, txids: seq<Hash>)
    requires Injective(H) && pos < Width(|txids|, height)
    requires var (hash, c') := Extract(H, |txids|, bits, hashes, height, pos, c);
             !c'.bad && hash == CalcHash(H, height, pos, txids)
    ensures First(height, pos) <= Last(|txids|, height, pos) <= |txids|
    ensures AddedFrom(c, Extract(H, |txids|, bits, hashes, height, pos, c).1,
                      txids[First(height, pos)..Last(|txids|, height, pos)])
    decreases height
  {
    hide First, Last, Width, AddedFrom, Extract, CalcHash;
    var n := |txids|;
    var c' := Extract(H, n, bits, hashes, height, pos, c).1;
    NodeHasLeaves(n, height, pos);
    var lo, hi := First(height, pos), Last(n, height, pos);
    if height == 0 || c.bitsUsed >= |bits| || !bits[c.bitsUsed] {
      ExtractStop(H, n, bits, hashes, height, pos, c);
      if height == 0 {
        LeafHash(H, pos, txids);
        AddedLeaf(c, c', txids[pos]);
        assert txids[lo..hi] == [txids[pos]];
      } else {
        AddedNothing(c, c', txids[lo..hi]);
      }
    } else {
      LeavesSplit(n, height, pos);
      CalcHashInner(H, height, pos, txids);
      ExtractInner(H, n, bits, hashes, height, pos, c);
      var c1 := c.(bitsUsed := c.bitsUsed + 1);
      var c2 := Extract(H, n, bits, hashes, height - 1, 2 * pos, c1).1;
      AddedAfterFlag(c, c1);
      if 2 * pos + 1 < Width(n, height - 1) {
        ExtractGrows(H, n, bits, hashes, height - 1, 2 * pos + 1, c2);
        ExtractSound(H, bits, hashes, height - 1, 2 * pos, c1, txids);
        ExtractSound(H, bits, hashes, height - 1, 2 * pos + 1, c2, txids);
        AddedFromBoth(c1, c2, c', txids, lo, Last(n, height - 1, 2 * pos), hi);
      } else {
        ExtractSound(H, bits, hashes, height - 1, 2 * pos, c1, txids);
      }
    }
  }

  // Whatever the bits and hashes are: if the verifier accepts with the true
  // root of a list, everything it matched is in that list, in the same order.
  lemma Soundness(H: PairHash, bits: seq<bool>, hashes: seq<Hash>, bad: bool, txids: seq<Hash>)
    requires Injective(H) && txids != []
    requires var (root, matched) := ExtractMatches(H, |txids|, bits, hashes, bad);
             root != 0 && root == MerkleRoot(H, txids)
    ensures var matched := ExtractMatches(H, |txids|, bits, hashes, bad).1;
            && IsSubsequence(matched, txids)
            && forall x :: x in matched ==> x in txids
  {
    var n := |txids|;
    var h := RootHeight(n, 0);
    RootCoversAll(n, h);
    ExtractSound(H, bits, hashes, h, 0, Cursor(0, 0, [], bad), txids);
    var matched := ExtractMatches(H, n, bits, hashes, bad).1;
    assert matched[0..] == matched && txids[0..n] == txids;
    SubsequenceMembers(matched, txids);
  }
}
