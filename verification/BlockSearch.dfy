// Choosing the best chain, on values: which candidates can be used, and what
// taking out the others keeps.
module BlockSearch {
  import opened Basics
  import opened BlockIndex
  import opened ActiveChain
  import opened BlockLinking
  import opened BlockPruning

  ghost predicate DistinctAddresses(s: set<CBlockIndex>)
  {
    forall a, b :: a in s && b in s && a != b ==> a.address != b.address
  }

  // ----- which candidates can be used -----

  /** Down to the active chain no entry is in `bad`. */
  ghost predicate Usable(v: seq<CBlockIndex?>, bad: set<CBlockIndex>, b: CBlockIndex)
    requires Tree(b)
    decreases b.nHeight
  {
    InChain(v, b) || (b !in bad && (b.pprev == null || Usable(v, bad, b.pprev)))
  }

  // A bad entry off the chain spoils everything above it.
  lemma {:induction false} SpoilsAbove(v: seq<CBlockIndex?>, bad: set<CBlockIndex>, b: CBlockIndex, t: CBlockIndex)
    requires IsChain(v) && Tree(b) && t.nHeight <= b.nHeight && t == Ancestor(b, t.nHeight)
    requires t in bad && !InChain(v, t)
    ensures !Usable(v, bad, b) && !InChain(v, b)
    decreases b.nHeight
  {
    if InChain(v, b) {
      InChainDown(v, b, t.nHeight);
    } else if b != t {
      ParentIs(b, b);
      AncestorOfAncestor(b, b.nHeight - 1, t.nHeight);
      SpoilsAbove(v, bad, b.pprev, t);
    }
  }

  // Marking unusable entries as bad changes nothing.
  lemma {:induction false} MoreBad(v: seq<CBlockIndex?>, bad: set<CBlockIndex>, bad': set<CBlockIndex>, b: CBlockIndex)
    requires Tree(b) && bad <= bad'
    requires forall x :: x in bad' && x !in bad ==> Tree(x) && !Usable(v, bad, x)
    ensures Usable(v, bad', b) <==> Usable(v, bad, b)
    decreases b.nHeight
  {
    if b.pprev != null {
      MoreBad(v, bad, bad', b.pprev);
    }
  }

  /** `x` lies on the path from `c` down to the height of `t`. */
  ghost predicate OnPath(c: CBlockIndex, t: CBlockIndex, x: CBlockIndex)
  {
    Tree(c) && Tree(x) && t.nHeight <= x.nHeight <= c.nHeight && x == Ancestor(c, x.nHeight) && t == Ancestor(c, t.nHeight)
  }

  lemma SameHeight(c: CBlockIndex, x: CBlockIndex, t: CBlockIndex)
    requires OnPath(c, t, x)
    ensures x.nHeight == t.nHeight <==> x == t
  {
  }

  // ----- what the search keeps -----

  /** Every entry of the set has a bad one on its way down to the chain. */
  ghost predicate NoneUsable(v: seq<CBlockIndex?>, bad: set<CBlockIndex>, s: set<CBlockIndex>)
  {
    forall c :: c in s ==> Tree(c) && !Usable(v, bad, c)
  }

  /** A round without result: some candidates go, entries may be marked, and none of these could be used. */
  ghost predicate Shrinks(v: seq<CBlockIndex?>, bad: set<CBlockIndex>, candidates: set<CBlockIndex>, marked: set<CBlockIndex>,
                          candidates': set<CBlockIndex>, marked': set<CBlockIndex>)
  {
    && candidates' < candidates && NoneUsable(v, bad, candidates - candidates')
    && marked <= marked' && NoneUsable(v, bad, marked' - marked)
  }

  datatype Fields = Fields(seqId: nat, count: nat, data: bool, failed: bool)

  ghost predicate BetterThan(v: seq<CBlockIndex?>, bad: set<CBlockIndex>, fields: map<CBlockIndex, Fields>, c: CBlockIndex, r: CBlockIndex)
  {
    c in fields && r in fields && Tree(c) && (Usable(v, bad, c) ==> Worse(c, fields[c].seqId, r, fields[r].seqId))
  }

  /** The greatest of those candidates that can be used. */
  ghost predicate IsBest(v: seq<CBlockIndex?>, bad: set<CBlockIndex>, candidates: set<CBlockIndex>, fields: map<CBlockIndex, Fields>, r: CBlockIndex)
  {
    && r in candidates && r in fields && Tree(r) && Usable(v, bad, r)
    && forall c :: c in candidates && c != r ==> BetterThan(v, bad, fields, c, r)
  }

  // The best candidate has the most work of those that can be used; of the same
  // work it came first, and addresses decide only between equals.
  lemma BestHasMostWork(v: seq<CBlockIndex?>, bad: set<CBlockIndex>, candidates: set<CBlockIndex>, fields: map<CBlockIndex, Fields>, r: CBlockIndex,
                        c: CBlockIndex)
    requires IsBest(v, bad, candidates, fields, r) && c in candidates && c != r && Tree(c) && Usable(v, bad, c)
    ensures c in fields && c.nChainWork <= r.nChainWork
    ensures c.nChainWork == r.nChainWork ==> fields[r].seqId <= fields[c].seqId
    ensures c.nChainWork == r.nChainWork && fields[r].seqId == fields[c].seqId ==> r.address < c.address
  {
    assert BetterThan(v, bad, fields, c, r);
    hide Usable, Tree;
  }

  lemma NoneOfNothing(v: seq<CBlockIndex?>, bad: set<CBlockIndex>, candidates: set<CBlockIndex>, marked: set<CBlockIndex>)
    ensures NoneUsable(v, bad, candidates - candidates) && NoneUsable(v, bad, marked - marked)
  {
  }

  /** Entries are in a tree, counts go on from parents, and candidates have counts. */
  ghost predicate GrownOk(fields: map<CBlockIndex, Fields>, candidates: set<CBlockIndex>)
  {
    && DistinctAddresses(fields.Keys) && candidates <= fields.Keys
    && (forall b :: b in fields ==> Tree(b) && (b.pprev != null ==> b.pprev in fields))
    && (forall b :: b in fields && fields[b].count != 0 && b.pprev != null ==> fields[b.pprev].count != 0)
    && (forall c :: c in candidates ==> fields[c].count != 0)
  }

  lemma FewerCandidates(fields: map<CBlockIndex, Fields>, candidates: set<CBlockIndex>, fewer: set<CBlockIndex>)
    requires GrownOk(fields, candidates) && fewer <= candidates
    ensures GrownOk(fields, fewer)
  {
    hide Tree;
  }

  ghost predicate IsGreatest(fields: map<CBlockIndex, Fields>, candidates: set<CBlockIndex>, r: CBlockIndex)
  {
    forall c :: c in candidates ==>
      Tree(c) && c in fields && r in fields && (c != r ==> Worse(c, fields[c].seqId, r, fields[r].seqId))
  }

  lemma BestIs(v: seq<CBlockIndex?>, bad: set<CBlockIndex>, all: set<CBlockIndex>, left: set<CBlockIndex>, fields: map<CBlockIndex, Fields>, r: CBlockIndex)
    requires left <= all && NoneUsable(v, bad, all - left) && r in left && Tree(r) && Usable(v, bad, r) && all <= fields.Keys
    requires IsGreatest(fields, left, r)
    ensures IsBest(v, bad, all, fields, r)
  {
    hide Tree, Usable, Worse;
    forall c | c in all && c != r ensures BetterThan(v, bad, fields, c, r) {
      if c !in left {
        assert c in all - left;
      }
    }
  }

  /** Entries that failed, or follow a failed one, or have no data. */
  ghost function BadEntries(fields: map<CBlockIndex, Fields>, marked: set<CBlockIndex>): set<CBlockIndex>
  {
    set b | b in fields && (fields[b].failed || b in marked || !fields[b].data)
  }

  lemma SameUsable(v: seq<CBlockIndex?>, fields: map<CBlockIndex, Fields>, marked: set<CBlockIndex>, marked': set<CBlockIndex>, c: CBlockIndex)
    requires Tree(c) && marked <= marked'
    requires NoneUsable(v, BadEntries(fields, marked), marked' - marked)
    ensures Usable(v, BadEntries(fields, marked'), c) <==> Usable(v, BadEntries(fields, marked), c)
  {
    MoreBad(v, BadEntries(fields, marked), BadEntries(fields, marked'), c);
  }

  // What one round takes out could not be used at the start either.
  lemma SpoiledSets(v: seq<CBlockIndex?>, fields: map<CBlockIndex, Fields>, all: set<CBlockIndex>, before: set<CBlockIndex>,
                    left: set<CBlockIndex>, marked: set<CBlockIndex>, mBefore: set<CBlockIndex>, mAfter: set<CBlockIndex>)
    requires NoneUsable(v, BadEntries(fields, marked), all - before) && marked <= mBefore && before <= all
    requires NoneUsable(v, BadEntries(fields, marked), mBefore - marked)
    requires Shrinks(v, BadEntries(fields, mBefore), before, mBefore, left, mAfter)
    ensures NoneUsable(v, BadEntries(fields, marked), all - left) && left < before
    ensures NoneUsable(v, BadEntries(fields, marked), mAfter - marked) && marked <= mAfter
  {
    hide Tree, Usable, BadEntries;
    forall x | x in (all - left) + (mAfter - marked) ensures Tree(x) && !Usable(v, BadEntries(fields, marked), x) {
      if x !in all - before && x !in mBefore - marked {
        assert x in before - left || x in mAfter - mBefore;
        SameUsable(v, fields, marked, mBefore, x);
      }
    }
  }

  /** No entry with a count lacks its data: nothing was pruned. */
  ghost predicate DataKept(fields: map<CBlockIndex, Fields>)
  {
    forall b :: b in fields && fields[b].count != 0 ==> fields[b].data
  }

  ghost function FailedFields(fields: map<CBlockIndex, Fields>): set<CBlockIndex>
  {
    set b | b in fields && fields[b].failed
  }

  ghost predicate PathSet(c: CBlockIndex, t: CBlockIndex, s: set<CBlockIndex>)
  {
    forall x :: x in s ==> OnPath(c, t, x)
  }

  // Nothing on the path above a bad entry can be used.
  lemma PathUnusable(v: seq<CBlockIndex?>, bad: set<CBlockIndex>, c: CBlockIndex, t: CBlockIndex, s: set<CBlockIndex>)
    requires IsChain(v) && t in bad && !InChain(v, t) && PathSet(c, t, s)
    ensures NoneUsable(v, bad, s)
  {
    forall x | x in s ensures Tree(x) && !Usable(v, bad, x) {
      assert OnPath(c, t, x);
      AncestorOfAncestor(c, x.nHeight, t.nHeight);
      SpoilsAbove(v, bad, x, t);
    }
  }

  /** `n` entries from `c` downwards. */
  function Above(c: CBlockIndex, n: int): seq<CBlockIndex>
    decreases n
  {
    if n <= 0 then [] else [c] + if c.pprev == null then [] else Above(c.pprev, n - 1)
  }

  /** The entries above `t` up to `c`. */
  function Span(c: CBlockIndex, t: CBlockIndex): seq<CBlockIndex>
  {
    Above(c, c.nHeight - t.nHeight)
  }

  function Elems(s: seq<CBlockIndex>): set<CBlockIndex>
  {
    set x | x in s
  }

  /** Each entry with its parent. */
  function LinksOf(s: seq<CBlockIndex>): seq<Link>
  {
    if s == [] then []
    else LinksOf(s[..|s| - 1]) + if s[|s| - 1].pprev == null then [] else [Link(s[|s| - 1].pprev, s[|s| - 1])]
  }

  lemma NothingPassed(c: CBlockIndex, t: CBlockIndex, s: set<CBlockIndex>, u: set<CBlockIndex>, links: seq<Link>, above: seq<CBlockIndex>)
    requires OnPath(c, t, c)
    ensures t.nHeight <= c.nHeight
    ensures PathSet(c, t, Elems([])) && c in Elems([]) + {c} && s == s - Elems([]) && u == u + Elems([])
    ensures links == links + LinksOf([]) && [] + above == above
  {
  }

  lemma PassedSets(cands: set<CBlockIndex>, marked: set<CBlockIndex>, passed: seq<CBlockIndex>, f: CBlockIndex)
    ensures cands - Elems(passed) - {f} == cands - Elems(passed + [f])
    ensures marked + Elems(passed) + {f} == marked + Elems(passed + [f])
  {
  }

  lemma NothingAbove(t: CBlockIndex, s: seq<CBlockIndex>)
    ensures s + Span(t, t) == s
  {
  }

  // One more entry of the path is passed.
  lemma PassOne(c: CBlockIndex, t: CBlockIndex, f: CBlockIndex, passed: seq<CBlockIndex>, links: seq<Link>)
    requires OnPath(c, t, f) && f != t && f.pprev != null && OnPath(c, t, f.pprev)
    requires PathSet(c, t, Elems(passed)) && c in Elems(passed) + {f}
    ensures f.pprev.nHeight == f.nHeight - 1 >= t.nHeight
    ensures passed + Span(f, t) == passed + [f] + Span(f.pprev, t)
    ensures Elems(passed + [f]) == Elems(passed) + {f} && PathSet(c, t, Elems(passed + [f]))
    ensures c in Elems(passed + [f]) + {f.pprev}
    ensures links + LinksOf(passed + [f]) == links + LinksOf(passed) + [Link(f.pprev, f)]
  {
    SameHeight(c, f, t);
    ParentIs(c, f);
    assert (passed + [f])[..|passed|] == passed;
    var rest := Span(f.pprev, t);
    assert Span(f, t) == [f] + rest;
    assert passed + ([f] + rest) == passed + [f] + rest;
  }

  ghost predicate ClosedUnderParents(blocks: set<CBlockIndex>)
  {
    forall b :: b in blocks && b.pprev != null ==> b.pprev in blocks
  }

  lemma ParentOnPath(c: CBlockIndex, t: CBlockIndex, f: CBlockIndex)
    requires OnPath(c, t, f) && f != t
    ensures f.pprev != null && OnPath(c, t, f.pprev) && f.pprev.nHeight < f.nHeight
    ensures f != c || f.pprev != c
  {
    SameHeight(c, f, t);
    ParentIs(c, f);
  }

  lemma SpanStep(c: CBlockIndex, t: CBlockIndex)
    requires OnPath(c, t, c) && Tree(t) && c != t
    ensures c.pprev != null && OnPath(c.pprev, t, c.pprev) && c.pprev.nHeight == c.nHeight - 1
    ensures Elems(Span(c, t)) == {c} + Elems(Span(c.pprev, t))
  {
    SameHeight(c, c, t);
    ParentOnPath(c, t, c);
    ParentIs(c, c);
    AncestorOfAncestor(c, c.nHeight - 1, t.nHeight);
    OwnAncestor(c.pprev);
    assert Span(c, t) == [c] + Span(c.pprev, t);
  }

  lemma PathUp(c: CBlockIndex, t: CBlockIndex, x: CBlockIndex)
    requires OnPath(c, t, c) && c.pprev != null && c.pprev.nHeight == c.nHeight - 1 && OnPath(c.pprev, t, x)
    ensures OnPath(c, t, x)
  {
    ParentIs(c, c);
    AncestorOfAncestor(c, c.nHeight - 1, x.nHeight);
  }

  lemma {:induction false} AboveIsStacked(c: CBlockIndex, t: CBlockIndex, blocks: set<CBlockIndex>)
    requires OnPath(c, t, c) && Tree(t) && c in blocks && ClosedUnderParents(blocks)
    ensures forall x :: x in Elems(Span(c, t)) ==>
              && x in blocks && x.nHeight > t.nHeight && OnPath(c, t, x)
              && x.pprev != null && (x.pprev == t || x.pprev in Elems(Span(c, t)))
    ensures c == t || c in Elems(Span(c, t))
    decreases c.nHeight
  {
    if c == t {
      assert Span(c, t) == [];
    } else {
      SpanStep(c, t);
      AboveIsStacked(c.pprev, t, blocks);
      SameHeight(c, c, t);
      hide Span, Elems, OnPath, Tree;
      forall x | x in Elems(Span(c, t)) && x != c ensures OnPath(c, t, x) {
        PathUp(c, t, x);
      }
    }
  }

  lemma {:induction false} LinksAre(s: seq<CBlockIndex>)
    ensures forall l :: l in LinksOf(s) ==> l.child in Elems(s) && l.parent == l.child.pprev
    ensures forall x :: x in Elems(s) && x.pprev != null ==> Link(x.pprev, x) in LinksOf(s)
  {
    if s != [] {
      LinksAre(s[..|s| - 1]);
      assert s == s[..|s| - 1] + [s[|s| - 1]];
      assert Elems(s) == Elems(s[..|s| - 1]) + {s[|s| - 1]};
    }
  }

  // What stands above an entry off the chain is off the chain.
  lemma AboveOffChain(v: seq<CBlockIndex?>, c: CBlockIndex, t: CBlockIndex, s: set<CBlockIndex>)
    requires IsChain(v) && PathSet(c, t, s) && !InChain(v, t)
    ensures forall x :: x in s ==> !InChain(v, x)
  {
    forall x | x in s ensures !InChain(v, x) {
      assert OnPath(c, t, x);
      AncestorOfAncestor(c, x.nHeight, t.nHeight);
      SpoilsAbove(v, {t}, x, t);
    }
  }

  /** All entries of `s` are linked and have data. */
  ghost predicate AllUsable(t: Tables, s: set<CBlockIndex>)
  {
    forall x :: x in s ==> x in t.data && IsLinked(t, x)
  }

  lemma ShapeIsClosed(t: Tables)
    requires Shape(t)
    ensures ClosedUnderParents(t.blocks)
  {
    hide Tree;
  }

  lemma TakesOutPath(t: Tables, failed: set<CBlockIndex>, c: CBlockIndex, x: CBlockIndex)
    requires Shape(t) && (x in failed || x !in t.data) && OnPath(c, x, c) && Tree(x) && c in t.blocks && AllUsable(t, Elems(Span(c, x)))
    ensures TakesOut(t, failed, x, Elems(Span(c, x)), if x in failed then [] else LinksOf(Span(c, x)))
  {
    ShapeIsClosed(t);
    AboveIsStacked(c, x, t.blocks);
    LinksAre(Span(c, x));
    forall s | s in Elems(Span(c, x)) ensures Tree(s) && s in t.data && IsLinked(t, s) {
    }
    hide Tree, Elems, LinksOf, Span, OnPath;
  }

  lemma PathSubset(c: CBlockIndex, t: CBlockIndex, s: set<CBlockIndex>, s': set<CBlockIndex>)
    requires PathSet(c, t, s) && OnPath(c, t, t) && s' <= s + {t}
    ensures PathSet(c, t, s')
  {
  }
}
