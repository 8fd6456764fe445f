// What the prover writes, the verifier reads back, also through the packed bytes.
module PartialMerkleRoundTrip {
  import opened Basics
  import opened Nonlinear
  import opened PartialMerkle

  /** The matched ids, in order. */
  function Selected(txids: seq<Hash>, matches: seq<bool>): seq<Hash>
    requires |matches| == |txids|
  {
    if txids == [] then []
    else
      var k := |txids| - 1;
      Selected(txids[..k], matches[..k]) + if matches[k] then [txids[k]] else []
  }

  lemma {:induction false} SelectedConcat(s: seq<Hash>, m: seq<bool>, s': seq<Hash>, m': seq<bool>)
    requires |m| == |s| && |m'| == |s'|
    ensures Selected(s + s', m + m') == Selected(s, m) + Selected(s', m')
    decreases |s'|
  {
    if s' == [] {
      assert s + s' == s && m + m' == m;
    } else {
      var k := |s'| - 1;
      assert (s + s')[..|s + s'| - 1] == s + s'[..k] && (m + m')[..|m + m'| - 1] == m + m'[..k];
      SelectedConcat(s, m, s'[..k], m'[..k]);
    }
  }

  lemma {:induction false} SelectedNone(s: seq<Hash>, m: seq<bool>)
    requires |m| == |s|
    ensures |Selected(s, m)| <= |s|
    ensures Selected(s, m) == [] <==> forall i :: 0 <= i < |m| ==> !m[i]
  {
    if s != [] {
      SelectedNone(s[..|s| - 1], m[..|s| - 1]);
    }
  }

  /** The matched ids below a node. */
  function Below(height: nat, pos: nat, txids: seq<Hash>, matches: seq<bool>): seq<Hash>
    requires |matches| == |txids| && pos < Width(|txids|, height)
  {
    NodeHasLeaves(|txids|, height, pos);
    Selected(txids[First(height, pos)..Last(|txids|, height, pos)], matches[First(height, pos)..Last(|txids|, height, pos)])
  }

  lemma BelowLeaf(pos: nat, txids: seq<Hash>, matches: seq<bool>)
    requires |matches| == |txids| && pos < Width(|txids|, 0)
    ensures pos < |txids| && Below(0, pos, txids, matches) == if matches[pos] then [txids[pos]] else []
    ensures ParentOfMatch(matches, 0, pos) == matches[pos]
  {
    NodeHasLeaves(|txids|, 0, pos);
    assert txids[pos..pos + 1] == [txids[pos]] && matches[pos..pos + 1] == [matches[pos]];
    assert Selected([], []) == [];
  }

  lemma BelowSplit(height: nat, pos: nat, txids: seq<Hash>, matches: seq<bool>)
    requires |matches| == |txids| && height > 0 && pos < Width(|txids|, height)
    ensures 2 * pos < Width(|txids|, height - 1)
    ensures Below(height, pos, txids, matches)
            == Below(height - 1, 2 * pos, txids, matches) +
               if 2 * pos + 1 < Width(|txids|, height - 1) then Below(height - 1, 2 * pos + 1, txids, matches) else []
  {
    hide Width, First, Last;
    var n := |txids|;
    NodeHasLeaves(n, height, pos);
    LeftChildExists(n, height, pos);
    LeavesSplit(n, height, pos);
    NodeHasLeaves(n, height - 1, 2 * pos);
    var lo, mid, hi := First(height, pos), Last(n, height - 1, 2 * pos), Last(n, height, pos);
    if 2 * pos + 1 < Width(n, height - 1) {
      NodeHasLeaves(n, height - 1, 2 * pos + 1);
      SelectedConcat(txids[lo..mid], matches[lo..mid], txids[mid..hi], matches[mid..hi]);
      assert txids[lo..hi] == txids[lo..mid] + txids[mid..hi];
      assert matches[lo..hi] == matches[lo..mid] + matches[mid..hi];
    }
  }

  lemma FlagIffMatched(height: nat, pos: nat, txids: seq<Hash>, matches: seq<bool>)
    requires |matches| == |txids| && pos < Width(|txids|, height)
    ensures ParentOfMatch(matches, height, pos) <==> Below(height, pos, txids, matches) != []
  {
    var lo, hi := First(height, pos), Last(|txids|, height, pos);
    NodeHasLeaves(|txids|, height, pos);
    SelectedNone(txids[lo..hi], matches[lo..hi]);
    if p :| lo <= p < hi && matches[p] {
      assert matches[lo..hi][p - lo];
    }
  }

  // ----- how much is written -----

  lemma UnmatchedIsOneHash(H: PairHash, height: nat, pos: nat, txids: seq<Hash>, matches: seq<bool>)
    requires |matches| == |txids| && pos < Width(|txids|, height)
    requires |Below(height, pos, txids, matches)| == 0
    ensures |Build(H, height, pos, txids, matches).1| == 1
  {
    FlagIffMatched(height, pos, txids, matches);
  }

  lemma HashesOfPair(height: nat, m1: nat, m2: nat)
    requires height > 0
    ensures m1 * (height - 1) + m2 * (height - 1) + (m1 + m2) == (m1 + m2) * height
  {
    Distribute(height - 1, m1, m2);
    Distribute(m1 + m2, height - 1, 1);
  }

  lemma {:induction false} BuildSize(H: PairHash, height: nat, pos: nat, txids: seq<Hash>, matches: seq<bool>)
    requires |matches| == |txids| && pos < Width(|txids|, height)
    ensures var (bits, hashes) := Build(H, height, pos, txids, matches);
            && 1 <= |hashes| <= |bits|
            && |hashes| <= Last(|txids|, height, pos) - First(height, pos)
            && |hashes| <= 1 + |Below(height, pos, txids, matches)| * height
    decreases height
  {
    hide Width, First, Last, Below, ParentOfMatch, CalcHash;
    var n := |txids|;
    NodeHasLeaves(n, height, pos);
    if height > 0 && ParentOfMatch(matches, height, pos) {
      FlagIffMatched(height, pos, txids, matches);
      BelowSplit(height, pos, txids, matches);
      LeavesSplit(n, height, pos);
      var m, m1 := |Below(height, pos, txids, matches)|, |Below(height - 1, 2 * pos, txids, matches)|;
      BuildSize(H, height - 1, 2 * pos, txids, matches);
      if 2 * pos + 1 < Width(n, height - 1) {
        BuildSize(H, height - 1, 2 * pos + 1, txids, matches);
        HashesOfPair(height, m1, m - m1);
        if m1 == 0 {
          UnmatchedIsOneHash(H, height - 1, 2 * pos, txids, matches);
        }
        if m1 == m {
          UnmatchedIsOneHash(H, height - 1, 2 * pos + 1, txids, matches);
        }
      } else {
        MulMonotonic(m, height - 1, height);
      }
    }
  }

  // ----- how many flag bits -----

  /** The inner nodes with one child that the prover descends into. */
  function OneChild(height: nat, pos: nat, n: nat, matches: seq<bool>): (c: nat)
    requires |matches| == n && pos < Width(n, height)
    decreases height
  {
    if height == 0 || !ParentOfMatch(matches, height, pos) then 0
    else
      LeftChildExists(n, height, pos);
      OneChild(height - 1, 2 * pos, n, matches) +
      if 2 * pos + 1 < Width(n, height - 1) then OneChild(height - 1, 2 * pos + 1, n, matches) else 1
  }

  // One flag for each node of a binary tree whose leaves are the hashes, and one
  // more for each node with one child.  So there are at most 2 * |hashes| - 1
  // flags exactly when no such node is descended into.
  lemma {:induction false} FlagCount(H: PairHash, height: nat, pos: nat, txids: seq<Hash>, matches: seq<bool>)
    requires |matches| == |txids| && pos < Width(|txids|, height)
    ensures var (bits, hashes) := Build(H, height, pos, txids, matches);
            && |bits| == 2 * |hashes| - 1 + OneChild(height, pos, |txids|, matches)
            && (|bits| <= 2 * |hashes| - 1 <==> OneChild(height, pos, |txids|, matches) == 0)
    decreases height
  {
    hide Width, ParentOfMatch, CalcHash;
    if height > 0 && ParentOfMatch(matches, height, pos) {
      LeftChildExists(|txids|, height, pos);
      FlagCount(H, height - 1, 2 * pos, txids, matches);
      if 2 * pos + 1 < Width(|txids|, height - 1) {
        FlagCount(H, height - 1, 2 * pos + 1, txids, matches);
      }
    }
  }

  // Before the last node of a level every node has two children.
  lemma ChildrenOfInnerNode(n: nat, height: nat, pos: nat)
    requires height > 0 && pos < Width(n, height)
    ensures pos < Width(n, height) - 1 ==> 2 * pos + 2 < Width(n, height - 1)
  {
    if pos + 1 < Width(n, height) {
      LeftChildExists(n, height, pos + 1);
    }
  }

  // Only the last node of a level can have one child, so the excess is at most
  // the height.
  lemma {:induction false} OneChildPerLevel(height: nat, pos: nat, n: nat, matches: seq<bool>)
    requires |matches| == n && pos < Width(n, height)
    ensures OneChild(height, pos, n, matches) <= if pos == Width(n, height) - 1 then height else 0
    decreases height
  {
    if height > 0 && ParentOfMatch(matches, height, pos) {
      LeftChildExists(n, height, pos);
      ChildrenOfInnerNode(n, height, pos);
      hide Width, ParentOfMatch;
      OneChildPerLevel(height - 1, 2 * pos, n, matches);
      if 2 * pos + 1 < Width(n, height - 1) {
        OneChildPerLevel(height - 1, 2 * pos + 1, n, matches);
      }
    }
  }

  lemma ThreeWide()
    ensures Width(3, 0) == 3 && Width(3, 1) == 2 && Width(3, 2) == 1 && RootHeight(3, 0) == 2
  {
    assert Pow2(1) == 2 && Pow2(2) == 4 && Pow2(0) == 1;
    assert Width(3, 0) == 3 && Width(3, 1) == 2 && Width(3, 2) == 1;
    hide Width;
    assert RootHeight(3, 2) == 2;
    assert RootHeight(3, 1) == 2;
  }

  lemma ThreeMatched(matches: seq<bool>)
    requires matches == [false, false, true]
    requires Width(3, 0) == 3 && Width(3, 1) == 2 && Width(3, 2) == 1
    ensures ParentOfMatch(matches, 2, 0) && ParentOfMatch(matches, 1, 1) && !ParentOfMatch(matches, 1, 0)
  {
    hide Width;
    assert Pow2(1) == 2 && Pow2(2) == 4;
    assert matches[2];
  }

  /** What the prover writes for a whole list. */
  function BuildAll(H: PairHash, txids: seq<Hash>, matches: seq<bool>): (seq<bool>, seq<Hash>)
    requires txids != [] && |matches| == |txids|
  {
    RootCoversAll(|txids|, RootHeight(|txids|, 0));
    Build(H, RootHeight(|txids|, 0), 0, txids, matches)
  }

  // Three transactions of which only the last is matched need two hashes and four flags.
  lemma ThreeTransactionsNeedFourFlags(H: PairHash, txids: seq<Hash>)
    requires |txids| == 3
    ensures var (bits, hashes) := BuildAll(H, txids, [false, false, true]);
            |hashes| == 2 && |bits| == 4 > 2 * |hashes| - 1
  {
    var matches := [false, false, true];
    ThreeWide();
    ThreeMatched(matches);
    hide RootHeight, Width, ParentOfMatch, Build, CalcHash;
    BuildUnfold(H, 1, 0, txids, matches);
    BuildUnfold(H, 0, 2, txids, matches);
    BuildUnfold(H, 1, 1, txids, matches);
    BuildUnfold(H, 2, 0, txids, matches);
  }

  // ----- reading back -----

  /** Somewhere on the part that is read, two siblings have one hash. */
  predicate Clash(H: PairHash, height: nat, pos: nat, txids: seq<Hash>, matches: seq<bool>)
    requires |matches| == |txids| && pos < Width(|txids|, height)
    decreases height
  {
    height > 0 && ParentOfMatch(matches, height, pos) &&
    (LeftChildExists(|txids|, height, pos);
     || Clash(H, height - 1, 2 * pos, txids, matches)
     || (2 * pos + 1 < Width(|txids|, height - 1) &&
         (|| Clash(H, height - 1, 2 * pos + 1, txids, matches)
          || CalcHash(H, height - 1, 2 * pos, txids) == CalcHash(H, height - 1, 2 * pos + 1, txids))))
  }

  lemma {:induction false} DistinctNeverClash(H: PairHash, height: nat, pos: nat, txids: seq<Hash>, matches: seq<bool>)
    requires |matches| == |txids| && pos < Width(|txids|, height)
    requires Injective(H) && Distinct(txids)
    ensures !Clash(H, height, pos, txids, matches)
    decreases height
  {
    hide Width, ParentOfMatch, CalcHash;
    if height > 0 {
      LeftChildExists(|txids|, height, pos);
      DistinctNeverClash(H, height - 1, 2 * pos, txids, matches);
      if 2 * pos + 1 < Width(|txids|, height - 1) {
        DistinctNeverClash(H, height - 1, 2 * pos + 1, txids, matches);
        NodesDiffer(H, height - 1, 2 * pos, 2 * pos + 1, txids);
      }
    }
  }

  /** `part` stands in `whole` from `i` on. */
  predicate StandsAt<T(==)>(part: seq<T>, whole: seq<T>, i: nat)
  {
    i + |part| <= |whole| && whole[i..i + |part|] == part
  }

  lemma StandsSplit<T>(a: seq<T>, b: seq<T>, whole: seq<T>, i: nat)
    requires StandsAt(a + b, whole, i)
    ensures StandsAt(a, whole, i) && StandsAt(b, whole, i + |a|)
  {
    assert (a + b)[..|a|] == a && (a + b)[|a|..] == b;
  }

  /** The cursor after reading all that the prover wrote for a node. */
  function ReadThrough(H: PairHash, height: nat, pos: nat, txids: seq<Hash>, matches: seq<bool>, c: Cursor): Cursor
    requires |matches| == |txids| && pos < Width(|txids|, height)
  {
    var (bits, hashes) := Build(H, height, pos, txids, matches);
    Cursor(c.bitsUsed + |bits|, c.hashUsed + |hashes|, c.matched + Below(height, pos, txids, matches),
           c.bad || Clash(H, height, pos, txids, matches))
  }

  lemma AppendTwice(a: seq<Hash>, b: seq<Hash>, c: seq<Hash>)
    ensures a + b + c == a + (b + c)
  {
  }

  lemma ClashInner(H: PairHash, height: nat, pos: nat, txids: seq<Hash>, matches: seq<bool>)
    requires |matches| == |txids| && pos < Width(|txids|, height)
    requires height > 0 && ParentOfMatch(matches, height, pos)
    ensures 2 * pos < Width(|txids|, height - 1)
    ensures Clash(H, height, pos, txids, matches)
            <==> || Clash(H, height - 1, 2 * pos, txids, matches)
                 || (2 * pos + 1 < Width(|txids|, height - 1) &&
                     (|| Clash(H, height - 1, 2 * pos + 1, txids, matches)
                      || CalcHash(H, height - 1, 2 * pos, txids) == CalcHash(H, height - 1, 2 * pos + 1, txids)))
  {
    hide CalcHash, ParentOfMatch;
    LeftChildExists(|txids|, height, pos);
  }

  // A node with two children, put together.
  lemma ReadBoth(H: PairHash, height: nat, pos: nat, txids: seq<Hash>, matches: seq<bool>,
                 bits: seq<bool>, hashes: seq<Hash>, c: Cursor, c1: Cursor, c2: Cursor)
    requires |matches| == |txids| && pos < Width(|txids|, height) && height > 0 && ParentOfMatch(matches, height, pos)
    requires c.bitsUsed < |bits| && bits[c.bitsUsed] && 2 * pos + 1 < Width(|txids|, height - 1)
    requires c1 == c.(bitsUsed := c.bitsUsed + 1) && c2 == ReadThrough(H, height - 1, 2 * pos, txids, matches, c1)
    requires Extract(H, |txids|, bits, hashes, height - 1, 2 * pos, c1) == (CalcHash(H, height - 1, 2 * pos, txids), c2)
    requires Extract(H, |txids|, bits, hashes, height - 1, 2 * pos + 1, c2)
             == (CalcHash(H, height - 1, 2 * pos + 1, txids), ReadThrough(H, height - 1, 2 * pos + 1, txids, matches, c2))
    ensures Extract(H, |txids|, bits, hashes, height, pos, c)
            == (CalcHash(H, height, pos, txids), ReadThrough(H, height, pos, txids, matches, c))
  {
    hide Width, CalcHash, Extract, Below, ParentOfMatch, Clash, Build;
    CalcHashInner(H, height, pos, txids);
    ExtractInner(H, |txids|, bits, hashes, height, pos, c);
    BelowSplit(height, pos, txids, matches);
    ClashInner(H, height, pos, txids, matches);
    BuildUnfold(H, height, pos, txids, matches);
    AppendTwice(c.matched, Below(height - 1, 2 * pos, txids, matches), Below(height - 1, 2 * pos + 1, txids, matches));
  }

  // A node with one child.
  lemma ReadOne(H: PairHash, height: nat, pos: nat, txids: seq<Hash>, matches: seq<bool>,
                bits: seq<bool>, hashes: seq<Hash>, c: Cursor, c1: Cursor)
    requires |matches| == |txids| && pos < Width(|txids|, height) && height > 0 && ParentOfMatch(matches, height, pos)
    requires c.bitsUsed < |bits| && bits[c.bitsUsed] && 2 * pos < Width(|txids|, height - 1) <= 2 * pos + 1
    requires c1 == c.(bitsUsed := c.bitsUsed + 1)
    requires Extract(H, |txids|, bits, hashes, height - 1, 2 * pos, c1)
             == (CalcHash(H, height - 1, 2 * pos, txids), ReadThrough(H, height - 1, 2 * pos, txids, matches, c1))
    ensures Extract(H, |txids|, bits, hashes, height, pos, c)
            == (CalcHash(H, height, pos, txids), ReadThrough(H, height, pos, txids, matches, c))
  {
    hide Width, CalcHash, Extract, Below, ParentOfMatch, Clash, Build;
    CalcHashInner(H, height, pos, txids);
    ExtractInner(H, |txids|, bits, hashes, height, pos, c);
    BelowSplit(height, pos, txids, matches);
    ClashInner(H, height, pos, txids, matches);
    BuildUnfold(H, height, pos, txids, matches);
    assert Below(height, pos, txids, matches) == Below(height - 1, 2 * pos, txids, matches);
  }

  /** The bits and hashes built for a node stand at the cursor. */
  predicate StandsBuilt(H: PairHash, height: nat, pos: nat, txids: seq<Hash>, matches: seq<bool>,
                        bits: seq<bool>, hashes: seq<Hash>, c: Cursor)
    requires |matches| == |txids| && pos < Width(|txids|, height)
  {
    && StandsAt(Build(H, height, pos, txids, matches).0, bits, c.bitsUsed)
    && StandsAt(Build(H, height, pos, txids, matches).1, hashes, c.hashUsed)
  }

  lemma ReadStop(H: PairHash, height: nat, pos: nat, txids: seq<Hash>, matches: seq<bool>,
                 bits: seq<bool>, hashes: seq<Hash>, c: Cursor)
    requires |matches| == |txids| && pos < Width(|txids|, height)
    requires StandsBuilt(H, height, pos, txids, matches, bits, hashes, c)
    requires height == 0 || !ParentOfMatch(matches, height, pos)
    ensures Extract(H, |txids|, bits, hashes, height, pos, c)
            == (CalcHash(H, height, pos, txids), ReadThrough(H, height, pos, txids, matches, c))
  {
    var (b, h) := Build(H, height, pos, txids, matches);
    assert bits[c.bitsUsed] == bits[c.bitsUsed..c.bitsUsed + |b|][0] == b[0];
    assert hashes[c.hashUsed] == hashes[c.hashUsed..c.hashUsed + |h|][0] == h[0];
    ExtractStop(H, |txids|, bits, hashes, height, pos, c);
    FlagIffMatched(height, pos, txids, matches);
    assert !Clash(H, height, pos, txids, matches);
    assert c.matched + [] == c.matched;
    if height == 0 {
      BelowLeaf(pos, txids, matches);
      LeafHash(H, pos, txids);
    }
  }

  lemma StandsFirst<T>(x: T, rest: seq<T>, whole: seq<T>, i: nat)
    requires StandsAt([x] + rest, whole, i)
    ensures i < |whole| && whole[i] == x && StandsAt(rest, whole, i + 1)
    ensures ([x] + rest)[1..] == rest
  {
    assert whole[i] == whole[i..i + |[x] + rest|][0];
    StandsSplit([x], rest, whole, i);
  }

  lemma ReadFlag(H: PairHash, height: nat, pos: nat, txids: seq<Hash>, matches: seq<bool>, bits: seq<bool>, c: Cursor)
    requires |matches| == |txids| && pos < Width(|txids|, height)
    requires height > 0 && ParentOfMatch(matches, height, pos)
    requires StandsAt(Build(H, height, pos, txids, matches).0, bits, c.bitsUsed)
    ensures c.bitsUsed < |bits| && bits[c.bitsUsed]
    ensures 2 * pos < Width(|txids|, height - 1)
    ensures StandsAt(Build(H, height, pos, txids, matches).0[1..], bits, c.bitsUsed + 1)
    ensures var b1 := Build(H, height - 1, 2 * pos, txids, matches).0;
            Build(H, height, pos, txids, matches).0[1..]
            == if 2 * pos + 1 < Width(|txids|, height - 1)
               then b1 + Build(H, height - 1, 2 * pos + 1, txids, matches).0 else b1
  {
    hide *;
    LeftChildExists(|txids|, height, pos);
    BuildUnfold(H, height, pos, txids, matches);
    var b := Build(H, height, pos, txids, matches).0;
    var b1 := Build(H, height - 1, 2 * pos, txids, matches).0;
    var rest := if 2 * pos + 1 < Width(|txids|, height - 1)
                then b1 + Build(H, height - 1, 2 * pos + 1, txids, matches).0 else b1;
    assert b == [true] + rest;
    StandsFirst(true, rest, bits, c.bitsUsed);
  }

  // What was built for the children stands one after the other.
  lemma ChildrenStand(H: PairHash, height: nat, pos: nat, txids: seq<Hash>, matches: seq<bool>,
                      bits: seq<bool>, hashes: seq<Hash>, c: Cursor, c1: Cursor)
    requires |matches| == |txids| && pos < Width(|txids|, height) && height > 0 && ParentOfMatch(matches, height, pos)
    requires StandsBuilt(H, height, pos, txids, matches, bits, hashes, c) && c1 == c.(bitsUsed := c.bitsUsed + 1)
    ensures c.bitsUsed < |bits| && bits[c.bitsUsed] && 2 * pos < Width(|txids|, height - 1)
    ensures StandsBuilt(H, height - 1, 2 * pos, txids, matches, bits, hashes, c1)
    ensures 2 * pos + 1 < Width(|txids|, height - 1) ==>
              StandsBuilt(H, height - 1, 2 * pos + 1, txids, matches, bits, hashes,
                          ReadThrough(H, height - 1, 2 * pos, txids, matches, c1))
  {
    hide Width, CalcHash, Below, ParentOfMatch, Clash, StandsAt;
    ReadFlag(H, height, pos, txids, matches, bits, c);
    BuildUnfold(H, height, pos, txids, matches);
    hide Build;
    if 2 * pos + 1 < Width(|txids|, height - 1) {
      var (b1, h1) := Build(H, height - 1, 2 * pos, txids, matches);
      var (b2, h2) := Build(H, height - 1, 2 * pos + 1, txids, matches);
      StandsSplit(h1, h2, hashes, c.hashUsed);
      StandsSplit(b1, b2, bits, c1.bitsUsed);
    }
  }

  lemma {:induction false} ExtractBuilt(H: PairHash, height: nat, pos: nat, txids: seq<Hash>, matches: seq<bool>,
                                        bits: seq<bool>, hashes: seq<Hash>, c: Cursor)
    requires |matches| == |txids| && pos < Width(|txids|, height)
    requires StandsBuilt(H, height, pos, txids, matches, bits, hashes, c)
    ensures Extract(H, |txids|, bits, hashes, height, pos, c)
            == (CalcHash(H, height, pos, txids), ReadThrough(H, height, pos, txids, matches, c))
    decreases height
  {
    hide Width, CalcHash, Extract, ReadThrough, ParentOfMatch, StandsBuilt;
    if height == 0 || !ParentOfMatch(matches, height, pos) {
      ReadStop(H, height, pos, txids, matches, bits, hashes, c);
    } else {
      var c1 := c.(bitsUsed := c.bitsUsed + 1);
      ChildrenStand(H, height, pos, txids, matches, bits, hashes, c, c1);
      ExtractBuilt(H, height - 1, 2 * pos, txids, matches, bits, hashes, c1);
      if 2 * pos + 1 < Width(|txids|, height - 1) {
        var c2 := ReadThrough(H, height - 1, 2 * pos, txids, matches, c1);
        ExtractBuilt(H, height - 1, 2 * pos + 1, txids, matches, bits, hashes, c2);
        ReadBoth(H, height, pos, txids, matches, bits, hashes, c, c1, c2);
      } else {
        ReadOne(H, height, pos, txids, matches, bits, hashes, c, c1);
      }
    }
  }

  // ----- flag bits in bytes, least significant bit first -----

  /** `1 << i` in a byte. */
  function Mask(i: nat): bv8
    requires i < 8
  {
    if i == 0 then 0x01 else if i == 1 then 0x02 else if i == 2 then 0x04 else if i == 3 then 0x08
    else if i == 4 then 0x10 else if i == 5 then 0x20 else if i == 6 then 0x40 else 0x80
  }

  lemma MaskSets(b: bv8, i: nat, j: nat)
    requires i < 8 && j < 8
    ensures (b | Mask(i)) & Mask(j) != 0 <==> i == j || b & Mask(j) != 0
  {
  }

  // The least significant bit comes first.
  lemma MaskIsShift(i: nat)
    requires i < 8
    ensures Mask(i) == (1 as bv8) << i
  {
    if i < 4 {
      assert i == 0 || i == 1 || i == 2 || i == 3;
    } else {
      assert i == 4 || i == 5 || i == 6 || i == 7;
    }
  }

  predicate FlagAt(bytes: seq<bv8>, p: nat)
    requires p < 8 * |bytes|
  {
    bytes[p / 8] & Mask(p % 8) != 0
  }

  function SetBit(bytes: seq<bv8>, p: nat): seq<bv8>
    requires p < 8 * |bytes|
  {
    bytes[p / 8 := bytes[p / 8] | Mask(p % 8)]
  }

  lemma SetBitSets(bytes: seq<bv8>, p: nat, q: nat)
    requires p < 8 * |bytes| && q < 8 * |bytes|
    ensures FlagAt(SetBit(bytes, p), q) <==> p == q || FlagAt(bytes, q)
  {
    if p / 8 == q / 8 {
      MaskSets(bytes[p / 8], p % 8, q % 8);
    }
  }

  method Pack(bits: seq<bool>) returns (bytes: seq<bv8>)
    ensures |bytes| == (|bits| + 7) / 8
    ensures forall p :: 0 <= p < 8 * |bytes| ==> (FlagAt(bytes, p) <==> p < |bits| && bits[p])
  {
    bytes := seq((|bits| + 7) / 8, _ => 0);
    for p := 0 to |bits|
      invariant |bytes| == (|bits| + 7) / 8
      invariant forall q :: 0 <= q < 8 * |bytes| ==> (FlagAt(bytes, q) <==> q < p && bits[q])
    {
      if bits[p] {
        ghost var before := bytes;
        bytes := SetBit(bytes, p);
        forall q | 0 <= q < 8 * |bytes| ensures FlagAt(bytes, q) <==> q < p + 1 && bits[q] {
          SetBitSets(before, p, q);
        }
      }
    }
  }

  function Unpacked(bytes: seq<bv8>): seq<bool>
  {
    seq(8 * |bytes|, p requires 0 <= p < 8 * |bytes| => FlagAt(bytes, p))
  }

  method Unpack(bytes: seq<bv8>) returns (bits: seq<bool>)
    ensures bits == Unpacked(bytes)
  {
    bits := [];
    for p := 0 to 8 * |bytes|
      invariant bits == Unpacked(bytes)[..p]
    {
      bits := bits + [bytes[p / 8] & Mask(p % 8) != 0];
    }
  }

  /** `bytes` hold exactly the bits, padded with zero bits. */
  predicate Holds(bytes: seq<bv8>, bits: seq<bool>)
  {
    && |bytes| == (|bits| + 7) / 8
    && forall p :: 0 <= p < 8 * |bytes| ==> (FlagAt(bytes, p) <==> p < |bits| && bits[p])
  }

  lemma UnpackedStandsAt(bytes: seq<bv8>, bits: seq<bool>)
    requires Holds(bytes, bits)
    ensures StandsAt(bits, Unpacked(bytes), 0)
    ensures (|bits| + 7) / 8 == (|Unpacked(bytes)| + 7) / 8 && |Unpacked(bytes)| >= |bits|
  {
    assert forall p :: 0 <= p < |bits| ==> (Unpacked(bytes)[p] <==> FlagAt(bytes, p));
  }

  // ----- the round trip -----

  predicate ClashAll(H: PairHash, txids: seq<Hash>, matches: seq<bool>)
    requires txids != [] && |matches| == |txids|
  {
    RootCoversAll(|txids|, RootHeight(|txids|, 0));
    Clash(H, RootHeight(|txids|, 0), 0, txids, matches)
  }

  // Through the packed bytes the verifier gets the matched ids in order, and
  // the true root unless two siblings on its way have one hash.
  lemma RoundTrip(H: PairHash, txids: seq<Hash>, matches: seq<bool>, bytes: seq<bv8>)
    requires txids != [] && |matches| == |txids| && |txids| <= MAX_BLOCK_SIZE / 60
    requires Holds(bytes, BuildAll(H, txids, matches).0)
    ensures ExtractMatches(H, |txids|, Unpacked(bytes), BuildAll(H, txids, matches).1, false)
            == (if ClashAll(H, txids, matches) then 0 else MerkleRoot(H, txids), Selected(txids, matches))
  {
    hide Build, Extract, Clash, CalcHash;
    var n, h := |txids|, RootHeight(|txids|, 0);
    RootCoversAll(n, h);
    var (bits, hashes) := BuildAll(H, txids, matches);
    UnpackedStandsAt(bytes, bits);
    assert hashes[0..|hashes|] == hashes;
    BuildSize(H, h, 0, txids, matches);
    var c := Cursor(0, 0, [], false);
    ExtractBuilt(H, h, 0, txids, matches, Unpacked(bytes), hashes, c);
    assert txids[0..n] == txids && matches[0..n] == matches;
    assert [] + Selected(txids, matches) == Selected(txids, matches);
  }

  // For distinct ids and a collision-free hash the round trip never fails, and
  // the number of hashes meets both bounds of the format.
  lemma DistinctRoundTrip(H: PairHash, txids: seq<Hash>, matches: seq<bool>, bytes: seq<bv8>)
    requires Injective(H) && Distinct(txids)
    requires txids != [] && |matches| == |txids| && |txids| <= MAX_BLOCK_SIZE / 60
    requires Holds(bytes, BuildAll(H, txids, matches).0)
    ensures ExtractMatches(H, |txids|, Unpacked(bytes), BuildAll(H, txids, matches).1, false)
            == (MerkleRoot(H, txids), Selected(txids, matches))
    ensures var hashes := BuildAll(H, txids, matches).1;
            |hashes| <= |txids| && |hashes| <= 1 + |Selected(txids, matches)| * RootHeight(|txids|, 0)
  {
    hide Build, Clash, CalcHash, ExtractMatches;
    var n, h := |txids|, RootHeight(|txids|, 0);
    RootCoversAll(n, h);
    RoundTrip(H, txids, matches, bytes);
    DistinctNeverClash(H, h, 0, txids, matches);
    BuildSize(H, h, 0, txids, matches);
    assert txids[0..n] == txids && matches[0..n] == matches;
  }
}
