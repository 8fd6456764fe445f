// Entries of the block tree: parents, skip pointers and ancestors.
module BlockIndex {
  import opened Nonlinear

  // ----- which height a skip pointer leads to -----

  /** Bitwise and. */
  function BitAnd(x: nat, y: nat): nat
  {
    if x == 0 || y == 0 then 0 else 2 * BitAnd(x / 2, y / 2) + if x % 2 == 1 && y % 2 == 1 then 1 else 0
  }

  function InvertLowestOne(n: nat): nat
  {
    if n == 0 then 0 else BitAnd(n, n - 1)
  }

  function GetSkipHeight(height: nat): nat
  {
    if height < 2 then 0
    else if height % 2 == 1 then InvertLowestOne(InvertLowestOne(height - 1)) + 1
    else InvertLowestOne(height)
  }

  lemma HalfDivides(n: nat, p: nat)
    requires n % 2 == 0 && p > 0 && n / 2 % p == 0
    ensures n % (2 * p) == 0 && n / (2 * p) == n / 2 / p
  {
    var q := n / 2 / p;
    assert n / 2 == p * q;
    assert n == 2 * p * q;
    DivModUnique(n, 2 * p, q, 0);
  }

  /** The largest power of two that divides a number. */
  function LowestOne(n: nat): (p: nat)
    requires n > 0
    ensures 1 <= p <= n && n % p == 0 && n / p % 2 == 1
  {
    if n % 2 == 1 then 1
    else
      HalfDivides(n, LowestOne(n / 2));
      2 * LowestOne(n / 2)
  }

  lemma {:induction false} AndSame(n: nat)
    ensures BitAnd(n, n) == n
  {
    if n > 0 {
      AndSame(n / 2);
    }
  }

  lemma {:induction false} AndEven(n: nat)
    ensures BitAnd(2 * n + 1, 2 * n) == 2 * n
  {
    AndSame(n);
  }

  // The bit trick takes the lowest one bit away.
  lemma {:induction false} InvertsLowestOne(n: nat)
    requires n > 0
    ensures InvertLowestOne(n) == n - LowestOne(n)
  {
    if n % 2 == 1 {
      AndEven(n / 2);
    } else {
      InvertsLowestOne(n / 2);
      assert (n - 1) / 2 == n / 2 - 1;
    }
  }

  // A skip pointer always leads down.
  lemma SkipsDown(n: nat)
    requires n >= 1
    ensures GetSkipHeight(n) < n
  {
    if n >= 2 {
      if n % 2 == 1 {
        InvertsLowestOne(n - 1);
        var m := InvertLowestOne(n - 1);
        if m > 0 {
          InvertsLowestOne(m);
        }
      } else {
        InvertsLowestOne(n);
      }
    }
  }

  // Even heights skip by their lowest one bit; odd ones go back over the two lowest
  // one bits of the even height below.
  lemma SkipHeightIs(n: nat)
    requires n >= 2
    ensures n % 2 == 0 ==> GetSkipHeight(n) == n - LowestOne(n)
    ensures n % 2 == 1 ==>
              var m := n - 1 - LowestOne(n - 1);
              GetSkipHeight(n) == 1 + if m == 0 then 0 else m - LowestOne(m)
  {
    if n % 2 == 0 {
      InvertsLowestOne(n);
    } else {
      InvertsLowestOne(n - 1);
      var m := n - 1 - LowestOne(n - 1);
      if m > 0 {
        InvertsLowestOne(m);
      }
    }
  }

  // ----- entries -----

  /** The entry reached by following parents `n` times. */
  function Up(b: CBlockIndex, n: nat): CBlockIndex?
  {
    if n == 0 then b else if b.pprev == null then null else Up(b.pprev, n - 1)
  }

  function Ancestor(b: CBlockIndex, height: int): CBlockIndex?
  {
    if 0 <= height <= b.nHeight then Up(b, b.nHeight - height) else null
  }

  /** Heights count parents, and every skip pointer leads to the ancestor at its height. */
  ghost predicate Tree(b: CBlockIndex)
    decreases b.nHeight
  {
    if b.pprev == null then b.nHeight == 0 && b.pskip == null
    else
      && b.nHeight == b.pprev.nHeight + 1
      && Tree(b.pprev)
      && b.pskip == Ancestor(b.pprev, GetSkipHeight(b.nHeight))
  }

  lemma {:induction false} UpIsBelow(b: CBlockIndex, n: nat)
    requires Tree(b) && n <= b.nHeight
    ensures Up(b, n) != null && Tree(Up(b, n)) && Up(b, n).nHeight == b.nHeight - n
  {
    if n > 0 {
      UpIsBelow(b.pprev, n - 1);
    }
  }

  lemma AncestorIs(b: CBlockIndex, height: int)
    requires Tree(b) && 0 <= height <= b.nHeight
    ensures Ancestor(b, height) != null && Tree(Ancestor(b, height)) && Ancestor(b, height).nHeight == height
  {
    UpIsBelow(b, b.nHeight - height);
  }

  lemma {:induction false} UpUp(b: CBlockIndex, m: nat, n: nat)
    requires Up(b, m) != null
    ensures Up(Up(b, m), n) == Up(b, m + n)
  {
    if m > 0 {
      UpUp(b.pprev, m - 1, n);
    }
  }

  // An ancestor's ancestors are ancestors.
  lemma AncestorOfAncestor(b: CBlockIndex, h: int, k: int)
    requires Tree(b) && 0 <= k <= h <= b.nHeight
    ensures Ancestor(b, h) != null && Ancestor(Ancestor(b, h), k) == Ancestor(b, k)
  {
    AncestorIs(b, h);
    UpUp(b, b.nHeight - h, h - k);
  }

  lemma SkipIsAncestor(b: CBlockIndex)
    requires Tree(b) && b.nHeight >= 1
    ensures b.pprev != null && b.pprev == Ancestor(b, b.nHeight - 1)
    ensures b.pskip != null && b.pskip == Ancestor(b, GetSkipHeight(b.nHeight)) && Tree(b.pskip)
    ensures b.pskip.nHeight == GetSkipHeight(b.nHeight)
  {
    SkipsDown(b.nHeight);
    assert Up(b, 1) == Up(b.pprev, 0);
    AncestorIs(b.pprev, GetSkipHeight(b.nHeight));
    AncestorOfAncestor(b, b.nHeight - 1, GetSkipHeight(b.nHeight));
  }

  /** Finds an ancestor by skip pointers where they do not overshoot. */
  method GetAncestor(b: CBlockIndex, height: int) returns (r: CBlockIndex?)
    requires Tree(b)
    ensures r == Ancestor(b, height)
    ensures 0 <= height <= b.nHeight ==> r != null && Tree(r) && r.nHeight == height
  {
    if height > b.nHeight || height < 0 {
      return null;
    }
    AncestorIs(b, height);
    var walk: CBlockIndex := b;
    var heightWalk := b.nHeight;
    while heightWalk > height
      invariant Tree(walk) && walk.nHeight == heightWalk >= height
      invariant Ancestor(walk, height) == Ancestor(b, height)
      decreases heightWalk
    {
      var heightSkip := GetSkipHeight(heightWalk);
      var heightSkipPrev := GetSkipHeight(heightWalk - 1);
      SkipsDown(heightWalk);
      SkipIsAncestor(walk);
      if walk.pskip != null && (heightSkip == height || (heightSkip > height && !(heightSkipPrev < heightSkip - 2 && heightSkipPrev >= height))) {
        AncestorOfAncestor(walk, heightSkip, height);
        walk := walk.pskip;
        heightWalk := heightSkip;
      } else {
        AncestorOfAncestor(walk, heightWalk - 1, height);
        walk := walk.pprev;
        heightWalk := heightWalk - 1;
      }
    }
    return walk;
  }

  class CBlockIndex {
    const hash: nat
    const pprev: CBlockIndex?
    const pskip: CBlockIndex?
    const nHeight: nat
    const nChainWork: nat

    /** Stands for the place in memory, which breaks ties. */
    const address: nat
    var nTx: nat
    var nChainTx: nat
    var nSequenceId: nat
    var haveData: bool
    var failedValid: bool
    var failedChild: bool

    /** A new entry on top of a known one, or without a known parent. */
    constructor (hash: nat, address: nat, proof: nat, prev: CBlockIndex?)
      requires prev != null ==> Tree(prev)
      ensures Tree(this)
      ensures this.hash == hash && this.address == address && pprev == prev
      ensures nHeight == (if prev == null then 0 else prev.nHeight + 1)
      ensures nChainWork == (if prev == null then 0 else prev.nChainWork) + proof
      ensures nTx == nChainTx == nSequenceId == 0 && !haveData && !failedValid && !failedChild
    {
      var skip: CBlockIndex? := null;
      if prev != null {
        SkipsDown(prev.nHeight + 1);
        skip := GetAncestor(prev, GetSkipHeight(prev.nHeight + 1));
      }
      this.hash, this.address, pprev, pskip := hash, address, prev, skip;
      nHeight := if prev == null then 0 else prev.nHeight + 1;
      nChainWork := (if prev == null then 0 else prev.nChainWork) + proof;
      nTx, nChainTx, nSequenceId, haveData, failedValid, failedChild := 0, 0, 0, false, false, false;
    }
  }
}
