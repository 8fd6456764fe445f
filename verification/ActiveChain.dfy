// The active chain as a vector of block entries, and block locators.
module ActiveChain {
  import opened Nonlinear
  import opened Basics
  import opened BlockIndex

  // ----- the vector behind a tip -----

  function Path(b: CBlockIndex): seq<CBlockIndex?>
  {
    seq(b.nHeight + 1, h => Ancestor(b, h))
  }

  /** The vector is empty, or it holds the ancestors of its last entry by height. */
  ghost predicate IsChain(v: seq<CBlockIndex?>)
  {
    v == [] || (v[|v| - 1] != null && Tree(v[|v| - 1]) && v == Path(v[|v| - 1]))
  }

  function EntryAt(v: seq<CBlockIndex?>, height: int): CBlockIndex?
  {
    if height < 0 || height >= |v| then null else v[height]
  }

  predicate InChain(v: seq<CBlockIndex?>, b: CBlockIndex)
  {
    EntryAt(v, b.nHeight) == b
  }

  // A chain holds the ancestors of everything it holds.
  lemma InChainDown(v: seq<CBlockIndex?>, b: CBlockIndex, h: int)
    requires IsChain(v) && Tree(b) && InChain(v, b) && 0 <= h <= b.nHeight
    ensures Ancestor(b, h) != null && Ancestor(b, h).nHeight == h && InChain(v, Ancestor(b, h)) && v[h] == Ancestor(b, h)
  {
    var tip := v[|v| - 1];
    AncestorIs(b, h);
    AncestorOfAncestor(tip, b.nHeight, h);
  }

  lemma TipIsTree(v: seq<CBlockIndex?>)
    requires IsChain(v)
    ensures v != [] ==> v[|v| - 1] != null && Tree(v[|v| - 1])
  {
  }

  lemma OwnAncestor(b: CBlockIndex)
    ensures Ancestor(b, b.nHeight) == b
  {
  }

  lemma PathIsChain(b: CBlockIndex)
    requires Tree(b)
    ensures IsChain(Path(b)) && |Path(b)| == b.nHeight + 1 && Path(b)[b.nHeight] == b
  {
  }

  // One step down the path to `b`.
  lemma ParentIs(b: CBlockIndex, p: CBlockIndex)
    requires Tree(b) && Tree(p) && p.nHeight <= b.nHeight && p == Ancestor(b, p.nHeight)
    ensures p.pprev == null <==> p.nHeight == 0
    ensures p.pprev != null ==>
              Tree(p.pprev) && p.pprev.nHeight == p.nHeight - 1 && p.pprev == Ancestor(b, p.nHeight - 1)
  {
    if p.pprev != null {
      AncestorOfAncestor(b, p.nHeight, p.pprev.nHeight);
      SkipIsAncestor(p);
    }
  }

  /** The chain and the path to `b` have the same entry at a height. */
  predicate SharedAt(v: seq<CBlockIndex?>, b: CBlockIndex, h: int)
  {
    Ancestor(b, h) != null && EntryAt(v, h) == Ancestor(b, h)
  }

  /** `r` is the highest entry that the chain shares with the path to `b`; null when there is none. */
  ghost predicate IsFork(v: seq<CBlockIndex?>, b: CBlockIndex, r: CBlockIndex?)
    requires Tree(b)
  {
    if r == null then forall h :: 0 <= h <= b.nHeight ==> !SharedAt(v, b, h)
    else
      && 0 <= r.nHeight <= b.nHeight && r == Ancestor(b, r.nHeight) && InChain(v, r)
      && forall h :: r.nHeight < h <= b.nHeight ==> !SharedAt(v, b, h)
  }

  // Below the fork everything is shared, above it nothing.
  lemma SharedUpToFork(v: seq<CBlockIndex?>, b: CBlockIndex, r: CBlockIndex?, h: int)
    requires IsChain(v) && Tree(b) && IsFork(v, b, r) && 0 <= h <= b.nHeight
    ensures SharedAt(v, b, h) <==> r != null && h <= r.nHeight
  {
    if r != null && h <= r.nHeight {
      AncestorIs(b, r.nHeight);
      InChainDown(v, r, h);
      AncestorOfAncestor(b, r.nHeight, h);
    }
  }

  // ----- locators -----

  /** The heights from `h` on, when `size` entries are listed and the next step is `step`. */
  function LocatorFrom(h: nat, step: nat, size: nat): (r: seq<nat>)
    requires step >= 1
    ensures |r| >= 1 && r[0] == h
    decreases h
  {
    if h == 0 then [0] else [h] + LocatorFrom(Max(h - step, 0), if size + 1 > 10 then step * 2 else step, size + 1)
  }

  function LocatorHeights(h: nat): seq<nat>
  {
    LocatorFrom(h, 1, 0)
  }

  function BlocksAt(b: CBlockIndex, heights: seq<nat>): seq<CBlockIndex?>
  {
    seq(|heights|, i requires 0 <= i < |heights| => Ancestor(b, heights[i]))
  }

  function LocatorBlocks(b: CBlockIndex): seq<CBlockIndex?>
  {
    BlocksAt(b, LocatorHeights(b.nHeight))
  }

  /** Hashes of known blocks. */
  function HashesOf(blocks: seq<CBlockIndex?>): seq<nat>
  {
    seq(|blocks|, i requires 0 <= i < |blocks| => if blocks[i] == null then 0 else blocks[i].hash)
  }

  function LocatorHashes(b: CBlockIndex): seq<nat>
  {
    HashesOf(LocatorBlocks(b))
  }

  /** The index finds this block by its hash. */
  predicate Knows(index: map<nat, CBlockIndex>, b: CBlockIndex?)
  {
    b != null && b.hash in index && index[b.hash] == b
  }

  /** The index has no other block under the hash of this one. */
  predicate NoOtherWithHash(index: map<nat, CBlockIndex>, b: CBlockIndex?)
  {
    b != null && b.hash in index ==> index[b.hash] == b
  }

  // The heights go strictly down and end at zero.
  lemma {:induction false} LocatorGoesDown(h: nat, step: nat, size: nat)
    requires step >= 1
    ensures var r := LocatorFrom(h, step, size);
            && r[|r| - 1] == 0
            && (forall i, j :: 0 <= i < j < |r| ==> r[i] > r[j])
    decreases h
  {
    if h > 0 {
      var h', step' := Max(h - step, 0), if size + 1 > 10 then step * 2 else step;
      LocatorGoesDown(h', step', size + 1);
      var rest := LocatorFrom(h', step', size + 1);
      assert LocatorFrom(h, step, size) == [h] + rest;
      forall j | 0 <= j < |rest| ensures rest[j] <= h' {
        assert j == 0 || rest[0] > rest[j];
      }
    }
  }

  /**
   * An entry of a locator: a hash that, where it is known, is that of the
   * ancestor at its height.  The blocks of the active chain are known.
   */
  ghost predicate Lists(v: seq<CBlockIndex?>, b: CBlockIndex, height: nat, hash: nat, index: map<nat, CBlockIndex>)
  {
    && (hash in index ==> index[hash] == Ancestor(b, height))
    && (SharedAt(v, b, height) ==> hash in index)
  }

  // What a locator sent by a peer lists, to a node that need not know the
  // peer's branch: hashes do not collide, and the active chain is known.
  lemma LocatorNamesAncestors(v: seq<CBlockIndex?>, b: CBlockIndex, index: map<nat, CBlockIndex>)
    requires Tree(b)
    requires forall h :: 0 <= h <= b.nHeight ==> NoOtherWithHash(index, Ancestor(b, h))
    requires forall h :: 0 <= h <= b.nHeight && SharedAt(v, b, h) ==> Knows(index, Ancestor(b, h))
    ensures |LocatorHashes(b)| == |LocatorHeights(b.nHeight)|
    ensures forall i :: 0 <= i < |LocatorHashes(b)| ==> Lists(v, b, LocatorHeights(b.nHeight)[i], LocatorHashes(b)[i], index)
  {
    var heights := LocatorHeights(b.nHeight);
    LocatorGoesDown(b.nHeight, 1, 0);
    forall i | 0 <= i < |heights| ensures Lists(v, b, heights[i], LocatorHashes(b)[i], index) {
      assert i == 0 || heights[0] > heights[i];
      AncestorIs(b, heights[i]);
      assert NoOtherWithHash(index, Ancestor(b, heights[i]));
    }
  }

  lemma HashesMore(blocks: seq<CBlockIndex?>, p: CBlockIndex)
    ensures HashesOf(blocks + [p]) == HashesOf(blocks) + [p.hash]
  {
  }

  lemma LocatorStarts(b: CBlockIndex)
    ensures [] + BlocksAt(b, LocatorFrom(b.nHeight, 1, 0)) == LocatorBlocks(b)
  {
  }

  lemma LocatorStep(b: CBlockIndex, h: nat, step: nat, size: nat)
    requires step >= 1
    ensures h == 0 ==> BlocksAt(b, LocatorFrom(h, step, size)[1..]) == []
    ensures h > 0 ==>
              LocatorFrom(h, step, size)[1..] == LocatorFrom(Max(h - step, 0), if size + 1 > 10 then step * 2 else step, size + 1)
  {
  }

  lemma FirstBlock(b: CBlockIndex, heights: seq<nat>)
    requires |heights| >= 1
    ensures BlocksAt(b, heights) == [Ancestor(b, heights[0])] + BlocksAt(b, heights[1..])
  {
  }

  lemma StepsLeft(h: nat, step: nat, k: nat)
    requires 0 < h <= step * (Pow2(k) - 1)
    ensures k > 0
  {
  }

  lemma HalfSteps(h: nat, step: nat, p: nat)
    requires p >= 1 && h <= step * (2 * p - 1)
    ensures Max(h - step, 0) <= step * 2 * (p - 1)
  {
    Distribute(step, 2 * p - 2, 1);
    assert step * 2 * (p - 1) == step * (2 * p - 2);
    MulMonotonic(step, 0, 2 * p - 2);
  }

  // Once steps double, few entries are left.
  lemma {:induction false} DoublingIsShort(h: nat, step: nat, size: nat, k: nat)
    requires step >= 1 && size >= 10 && h <= step * (Pow2(k) - 1)
    ensures |LocatorFrom(h, step, size)| <= 1 + k
    decreases k
  {
    if h > 0 {
      StepsLeft(h, step, k);
      HalfSteps(h, step, Pow2(k - 1));
      DoublingIsShort(Max(h - step, 0), step * 2, size + 1, k - 1);
    }
  }

  lemma {:induction false} SingleSteps(h: nat, size: nat, n: nat)
    requires size + n <= 10 && n <= h
    ensures |LocatorFrom(h, 1, size)| == n + |LocatorFrom(h - n, 1, size + n)|
    decreases n
  {
    if n > 0 {
      SingleSteps(h - 1, size + 1, n - 1);
    }
  }

  // A locator has at most 12 + log2(height) entries.
  lemma LocatorIsShort(h: nat, log: nat)
    requires h >= 10 && h < Pow2(log + 1)
    ensures |LocatorHeights(h)| <= 12 + log
  {
    SingleSteps(h, 0, 10);
    Distribute(1, Pow2(log + 1), -1);
    DoublingIsShort(h - 10, 1, 10, log + 1);
  }

  lemma StepOn(h: nat, step: nat, p: nat)
    requires p >= 1
    ensures Max(Max(h - step, 0) - step * 2 * (p - 1), 0) == Max(h - step * (2 * p - 1), 0)
  {
    Distribute(step, 2 * p - 2, 1);
    assert step * 2 * (p - 1) == step * (2 * p - 2);
    MulMonotonic(step, 0, 2 * p - 2);
  }

  lemma {:induction false} DoublingAt(h: nat, step: nat, size: nat, i: nat)
    requires step >= 1 && size >= 10 && i < |LocatorFrom(h, step, size)|
    ensures LocatorFrom(h, step, size)[i] == Max(h - step * (Pow2(i) - 1), 0)
    decreases i
  {
    if i > 0 {
      StepOn(h, step, Pow2(i - 1));
      DoublingAt(Max(h - step, 0), step * 2, size + 1, i - 1);
    }
  }

  lemma {:induction false} SinglesAt(h: nat, size: nat, i: nat)
    requires size < 10 && i < |LocatorFrom(h, 1, size)|
    ensures LocatorFrom(h, 1, size)[i] == if size + i <= 10 then h - i else Max(h - (10 - size) - (Pow2(size + i - 10) - 1), 0)
    decreases i
  {
    if i > 0 {
      if size + 1 < 10 {
        SinglesAt(h - 1, size + 1, i - 1);
      } else {
        DoublingAt(h - 1, 1, 10, i - 1);
      }
    }
  }

  // The heights a locator lists: the first eleven one by one from the top, then in
  // steps that double.
  lemma LocatorHeightAt(h: nat, i: nat)
    requires i < |LocatorHeights(h)|
    ensures LocatorHeights(h)[i] == if i <= 10 then h - i else Max(h - 9 - Pow2(i - 10), 0)
  {
    SinglesAt(h, 0, i);
  }

  // ----- the chain object -----

  // Below an entry that both chains share, they are the same.
  lemma RestIsShared(was: seq<CBlockIndex?>, v: seq<CBlockIndex?>, b: CBlockIndex, p: CBlockIndex)
    requires IsChain(was) && Tree(b) && Tree(p) && |v| == b.nHeight + 1 && p.nHeight <= b.nHeight && p == Ancestor(b, p.nHeight)
    requires forall h :: 0 <= h <= p.nHeight ==> v[h] == EntryAt(was, h)
    requires v[p.nHeight] == p
    ensures forall h :: 0 <= h <= p.nHeight ==> v[h] == Ancestor(b, h)
  {
    hide Tree, Up, Ancestor, IsChain;
    forall h | 0 <= h < p.nHeight ensures v[h] == Ancestor(b, h) {
      InChainDown(was, p, h);
      AncestorOfAncestor(b, p.nHeight, h);
    }
  }

  class CChain {
    var vChain: seq<CBlockIndex?>

    constructor ()
      ensures vChain == [] && IsChain(vChain)
    {
      vChain := [];
    }

    function Genesis(): CBlockIndex?
      reads this
    {
      if |vChain| > 0 then vChain[0] else null
    }

    function Tip(): CBlockIndex?
      reads this
    {
      if |vChain| > 0 then vChain[|vChain| - 1] else null
    }

    function At(height: int): CBlockIndex?
      reads this
    {
      EntryAt(vChain, height)
    }

    predicate Contains(b: CBlockIndex)
      reads this
    {
      At(b.nHeight) == b
    }

    function Next(b: CBlockIndex): CBlockIndex?
      reads this
    {
      if Contains(b) then At(b.nHeight + 1) else null
    }

    function Height(): int
      reads this
    {
      |vChain| - 1
    }

    /** Makes `b` the tip; the walk down stops where the old vector already agrees. */
    method SetTip(b: CBlockIndex?)
      requires IsChain(vChain) && (b != null ==> Tree(b))
      modifies this
      ensures IsChain(vChain) && Tip() == b
      ensures vChain == if b == null then [] else Path(b)
    {
      if b == null {
        vChain := [];
        return;
      }
      ghost var was := vChain;
      var size := b.nHeight + 1;
      vChain := if |vChain| >= size then vChain[..size] else vChain + seq(size - |vChain|, i => null);
      var p: CBlockIndex? := b;
      OwnAncestor(b);
      hide Tree, Up, Ancestor, IsChain;
      while p != null && vChain[p.nHeight] != p
        invariant |vChain| == size
        invariant p != null ==> Tree(p) && p.nHeight < size && p == Ancestor(b, p.nHeight)
        invariant forall h :: (if p == null then 0 else p.nHeight + 1) <= h < size ==> vChain[h] == Ancestor(b, h)
        invariant forall h :: 0 <= h < size && p != null && h <= p.nHeight ==> vChain[h] == EntryAt(was, h)
        decreases if p == null then 0 else p.nHeight + 1
      {
        vChain := vChain[p.nHeight := p];
        ParentIs(b, p);
        p := p.pprev;
      }
      if p != null {
        RestIsShared(was, vChain, b, p);
      }
      assert vChain == Path(b);
      PathIsChain(b);
    }

    method FindFork(b: CBlockIndex) returns (r: CBlockIndex?)
      requires IsChain(vChain) && Tree(b)
      ensures IsFork(vChain, b, r)
    {
      var p: CBlockIndex? := b;
      if b.nHeight > Height() {
        p := GetAncestor(b, Height());
      }
      while p != null && !Contains(p)
        invariant p != null ==> Tree(p) && p.nHeight <= b.nHeight && p == Ancestor(b, p.nHeight)
        invariant forall h :: (if p == null then 0 else p.nHeight + 1) <= h <= b.nHeight ==> !SharedAt(vChain, b, h)
        decreases if p == null then 0 else p.nHeight + 1
      {
        ParentIs(b, p);
        p := p.pprev;
      }
      return p;
    }

    /** Hashes of ever sparser ancestors, down to the first block. */
    method GetLocator(b: CBlockIndex?) returns (have: seq<nat>)
      requires IsChain(vChain) && (b != null ==> Tree(b))
      ensures var start := if b == null then Tip() else b;
              have == if start == null then [] else LocatorHashes(start)
    {
      hide Tree, Up, Ancestor, LocatorFrom, IsChain, LocatorBlocks, BlocksAt;
      var nStep := 1;
      have := [];
      ghost var blocks := [];
      var p := b;
      if p == null {
        p := Tip();
      }
      if p == null {
        return;
      }
      ghost var start := p;
      TipIsTree(vChain);
      OwnAncestor(start);
      LocatorStarts(start);
      while true
        invariant p != null && Tree(p) && Tree(start) && p.nHeight <= start.nHeight && p == Ancestor(start, p.nHeight)
        invariant nStep >= 1
        invariant blocks + BlocksAt(start, LocatorFrom(p.nHeight, nStep, |have|)) == LocatorBlocks(start)
        invariant |have| == |blocks| && have == HashesOf(blocks)
        decreases p.nHeight
      {
        ghost var rest := LocatorFrom(p.nHeight, nStep, |have|);
        FirstBlock(start, rest);
        LocatorStep(start, p.nHeight, nStep, |have|);
        HashesMore(blocks, p);
        have, blocks := have + [p.hash], blocks + [p];
        if p.nHeight == 0 {
          assert blocks == LocatorBlocks(start);
          return;
        }
        var height := Max(p.nHeight - nStep, 0);
        AncestorOfAncestor(start, p.nHeight, height);
        if Contains(p) {
          InChainDown(vChain, p, height);
          AncestorIs(p, height);
          p := At(height);
        } else {
          p := GetAncestor(p, height);
        }
        if |have| > 10 {
          nStep := nStep * 2;
        }
      }
    }
  }

  // ----- finding the fork from a locator -----

  /** The first listed block that is known and in the chain, or the first block of the chain. */
  function LocatorFork(v: seq<CBlockIndex?>, locator: seq<nat>, index: map<nat, CBlockIndex>): CBlockIndex?
  {
    if locator == [] then EntryAt(v, 0)
    else if locator[0] in index && InChain(v, index[locator[0]]) then index[locator[0]]
    else LocatorFork(v, locator[1..], index)
  }

  method FindForkInGlobalIndex(chain: CChain, locator: seq<nat>, index: map<nat, CBlockIndex>) returns (r: CBlockIndex?)
    ensures r == LocatorFork(chain.vChain, locator, index)
  {
    for i := 0 to |locator|
      invariant LocatorFork(chain.vChain, locator, index) == LocatorFork(chain.vChain, locator[i..], index)
    {
      if locator[i] in index {
        var b := index[locator[i]];
        if chain.Contains(b) {
          return b;
        }
      }
      assert locator[i..][1..] == locator[i + 1..];
    }
    return chain.Genesis();
  }

  /** The first listed height that is at most `k`. */
  function FirstAtMost(heights: seq<nat>, k: nat): nat
  {
    if heights == [] then 0 else if heights[0] <= k then heights[0] else FirstAtMost(heights[1..], k)
  }

  // The search through a locator ends at the first listed height that is shared.
  lemma {:induction false} LocatorForkIs(v: seq<CBlockIndex?>, b: CBlockIndex, fork: CBlockIndex, heights: seq<nat>,
                                         locator: seq<nat>, index: map<nat, CBlockIndex>)
    requires IsChain(v) && Tree(b) && IsFork(v, b, fork)
    requires heights != [] && heights[|heights| - 1] == 0 && forall i :: 0 <= i < |heights| ==> heights[i] <= b.nHeight
    requires |locator| == |heights| && forall i :: 0 <= i < |heights| ==> Lists(v, b, heights[i], locator[i], index)
    ensures FirstAtMost(heights, fork.nHeight) <= fork.nHeight
    ensures LocatorFork(v, locator, index) == Ancestor(b, FirstAtMost(heights, fork.nHeight))
    decreases |heights|
  {
    assert Lists(v, b, heights[0], locator[0], index);
    AncestorIs(b, heights[0]);
    SharedUpToFork(v, b, fork, heights[0]);
    if heights[0] > fork.nHeight {
      forall i | 0 <= i < |heights[1..]| ensures Lists(v, b, heights[1..][i], locator[1..][i], index) {
        assert Lists(v, b, heights[i + 1], locator[i + 1], index);
      }
      LocatorForkIs(v, b, fork, heights[1..], locator[1..], index);
    }
  }

  // The first listed height at or below the fork is at most twice as far down as the fork.
  lemma {:induction false} StepsAreClose(top: nat, h: nat, step: nat, size: nat, k: nat)
    requires h <= top && k <= top && 1 <= step <= top - h + 1
    requires h <= k ==> top - h <= 2 * (top - k)
    ensures FirstAtMost(LocatorFrom(h, step, size), k) <= k
    ensures top - FirstAtMost(LocatorFrom(h, step, size), k) <= 2 * (top - k)
    decreases h
  {
    if h > k {
      var h', step' := Max(h - step, 0), if size + 1 > 10 then step * 2 else step;
      var rest := LocatorFrom(h', step', size + 1);
      assert ([h] + rest)[1..] == rest;
      if h - step >= 0 {
        StepsAreClose(top, h', step', size + 1, k);
      } else {
        assert rest == [0];
      }
    }
  }

  // Without a common first block the search ends at the chain's own first block.
  lemma {:induction false} LocatorWithoutFork(v: seq<CBlockIndex?>, b: CBlockIndex, heights: seq<nat>, locator: seq<nat>,
                                              index: map<nat, CBlockIndex>)
    requires IsChain(v) && Tree(b) && IsFork(v, b, null)
    requires |locator| == |heights| && forall i :: 0 <= i < |heights| ==> heights[i] <= b.nHeight
    requires forall i :: 0 <= i < |heights| ==> Lists(v, b, heights[i], locator[i], index)
    ensures LocatorFork(v, locator, index) == EntryAt(v, 0)
    decreases |heights|
  {
    if heights != [] {
      assert Lists(v, b, heights[0], locator[0], index);
      AncestorIs(b, heights[0]);
      assert !SharedAt(v, b, heights[0]);
      forall i | 0 <= i < |heights[1..]| ensures Lists(v, b, heights[1..][i], locator[1..][i], index) {
        assert Lists(v, b, heights[i + 1], locator[i + 1], index);
      }
      LocatorWithoutFork(v, b, heights[1..], locator[1..], index);
    }
  }

  // Main result on locators: with a common first block, the block found from a
  // locator is in the chain, lies on the path to the locator's block at or
  // below the true fork, and no more than twice as deep as the fork.
  lemma LocatorFindsFork(v: seq<CBlockIndex?>, b: CBlockIndex, fork: CBlockIndex, locator: seq<nat>, index: map<nat, CBlockIndex>)
    requires IsChain(v) && Tree(b) && IsFork(v, b, fork)
    requires |locator| == |LocatorHeights(b.nHeight)|
    requires forall i :: 0 <= i < |locator| ==> Lists(v, b, LocatorHeights(b.nHeight)[i], locator[i], index)
    ensures var r := LocatorFork(v, locator, index);
            && r != null && InChain(v, r) && r.nHeight <= fork.nHeight
            && r == Ancestor(b, r.nHeight) == Ancestor(fork, r.nHeight)
            && b.nHeight - r.nHeight <= 2 * (b.nHeight - fork.nHeight)
  {
    var heights := LocatorHeights(b.nHeight);
    LocatorGoesDown(b.nHeight, 1, 0);
    forall i | 0 <= i < |heights| ensures heights[i] <= b.nHeight {
      assert i == 0 || heights[0] > heights[i];
    }
    LocatorForkIs(v, b, fork, heights, locator, index);
    StepsAreClose(b.nHeight, b.nHeight, 1, 0, fork.nHeight);
    var k := FirstAtMost(heights, fork.nHeight);
    AncestorIs(b, k);
    SharedUpToFork(v, b, fork, k);
    AncestorOfAncestor(b, fork.nHeight, k);
  }
}
