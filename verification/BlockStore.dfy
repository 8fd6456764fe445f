// The block index of a node: adding headers, receiving blocks, and choosing
// the tip to move to.
module BlockStore {
  import opened Basics
  import opened BlockIndex
  import opened ActiveChain
  import opened BlockLinking
  import opened BlockPruning
  import opened BlockCheck
  import opened BlockSearch

  // ----- the order of candidates -----

  predicate WorkLess(a: CBlockIndex, b: CBlockIndex)
    reads a, b
  {
    Worse(a, a.nSequenceId, b, b.nSequenceId)
  }

  lemma LessTwice(a: CBlockIndex, b: CBlockIndex, c: CBlockIndex)
    requires WorkLess(a, b) && WorkLess(b, c)
    ensures WorkLess(a, c)
  {
  }

  lemma ParentIsOther(b: CBlockIndex)
    requires Tree(b)
    ensures b.pprev != b
  {
  }

  lemma TakenLinks(t: Tables, p: CBlockIndex, u: seq<Link>)
    requires Shape(t) && p in t.blocks
    ensures LinkFront(t, p).(unlinked := u).(unlinked := Others(t.unlinked, p)) == LinkFront(t, p)
  {
  }

  lemma LinkedTables(t: Tables, p: CBlockIndex)
    requires Shape(t) && p in t.blocks
    ensures var t' := LinkFront(t, p);
            && t'.blocks == t.blocks && t'.data == t.data && t'.tx == t.tx && t'.next == t.next + 1
            && t'.tx.Keys == t'.chainTx.Keys == t'.seqs.Keys == t.blocks
            && t'.seqs[p] == t.next && t'.unlinked == Others(t.unlinked, p)
  {
    hide Tree;
  }

  /** The header with more work; the older one when they are equal. */
  function BetterHeader(best: CBlockIndex?, r: CBlockIndex): CBlockIndex
  {
    if best == null || best.nChainWork < r.nChainWork then r else best
  }

  /** One of the entries, with at least the work of each; null when there is none. */
  ghost predicate IsMostWork(best: CBlockIndex?, s: set<CBlockIndex>)
  {
    if best == null then s == {} else best in s && forall b :: b in s ==> b.nChainWork <= best.nChainWork
  }

  // One more entry: it takes the place of the best one exactly when it has more work.
  lemma MostWorkWith(best: CBlockIndex?, s: set<CBlockIndex>, r: CBlockIndex)
    requires IsMostWork(best, s)
    ensures IsMostWork(BetterHeader(best, r), s + {r})
    ensures best != null ==> (BetterHeader(best, r) != best <==> r.nChainWork > best.nChainWork)
  {
  }

  ghost predicate IdsOk(index: map<nat, CBlockIndex>, candidates: set<CBlockIndex>, next: nat)
  {
    && next >= 1
    && (forall h :: h in index ==> index[h].hash == h)
    && DistinctAddresses(index.Values)
    && candidates <= index.Values
  }

  lemma ValuesWith<V>(m: map<nat, V>, k: nat, v: V)
    requires k !in m
    ensures m[k := v].Values == m.Values + {v}
  {
    assert m[k := v].Values <= m.Values + {v};
    forall x | x in m.Values ensures x in m[k := v].Values {
      var j :| j in m && m[j] == x;
      assert m[k := v][j] == x;
    }
    assert m[k := v][k] == v;
  }

  lemma InsertIds(index: map<nat, CBlockIndex>, candidates: set<CBlockIndex>, next: nat, r: CBlockIndex)
    requires IdsOk(index, candidates, next) && r.hash !in index && forall b :: b in index.Values ==> b.address != r.address
    ensures IdsOk(index[r.hash := r], candidates, next) && index[r.hash := r].Values == index.Values + {r}
  {
    ValuesWith(index, r.hash, r);
  }

  /** The tables of a store and its candidates fit together. */
  ghost predicate StoreOk(index: map<nat, CBlockIndex>, candidates: set<CBlockIndex>, t: Tables)
  {
    && IdsOk(index, candidates, t.next) && t.blocks == index.Values && Counted(t, [])
    && forall c :: c in candidates ==> IsLinked(t, c)
  }

  lemma StoreShape(index: map<nat, CBlockIndex>, candidates: set<CBlockIndex>, t: Tables)
    requires StoreOk(index, candidates, t)
    ensures Shape(t) && forall b :: b in index.Values ==> Tree(b) && (b.pprev != null ==> b.pprev in index.Values)
  {
    hide Tree, IdsOk;
  }

  lemma HeaderStore(index: map<nat, CBlockIndex>, candidates: set<CBlockIndex>, t: Tables, r: CBlockIndex,
                    failed: set<CBlockIndex>, tip: CBlockIndex?)
    requires StoreOk(index, candidates, t) && r !in index.Values && r.hash !in index
    requires forall b :: b in index.Values ==> b.address != r.address
    requires Tree(r) && (r.pprev != null ==> r.pprev in index.Values)
    ensures StoreOk(index[r.hash := r], candidates, WithEntry(t, r)) && index[r.hash := r].Values == index.Values + {r}
    ensures NothingLost(t, [], candidates, failed, tip) ==> NothingLost(WithEntry(t, r), [], candidates, failed, tip)
  {
    InsertIds(index, candidates, t.next, r);
    HeaderKeeps(t, r, candidates, failed, tip);
    hide IdsOk, Counted, Tree, NothingLost;
  }

  lemma CandidatesStay(index: map<nat, CBlockIndex>, t: Tables, candidates: set<CBlockIndex>, t': Tables, candidates': set<CBlockIndex>)
    requires StoreOk(index, candidates, t) && Counted(t', []) && t'.blocks == t.blocks
    requires forall c :: c in candidates' && c !in candidates ==> IsLinked(t', c)
    requires forall c :: c in t.chainTx && IsLinked(t, c) ==> IsLinked(t', c)
    ensures StoreOk(index, candidates', t')
  {
    hide Tree, CountOk, LinkOk, QueuedOk, DistinctAddresses;
    forall c | c in candidates' ensures IsLinked(t', c) && c in t'.chainTx {
      assert c in candidates ==> IsLinked(t, c);
    }
  }

  // What is linked stays linked, so candidates do.
  lemma ReceivedStore(index: map<nat, CBlockIndex>, candidates: set<CBlockIndex>, t: Tables, b: CBlockIndex, n: nat,
                      parentFailed: bool, tip: CBlockIndex?)
    requires StoreOk(index, candidates, t) && Arrives(t, b, n)
    ensures StoreOk(index, Received(t, candidates, b, n, parentFailed, tip).1, Received(t, candidates, b, n, parentFailed, tip).0)
  {
    ReceivedKeeps(t, candidates, {}, b, n, parentFailed, tip);
    var (t', candidates') := Received(t, candidates, b, n, parentFailed, tip);
    hide Received, NothingLost, Arrives;
    CandidatesStay(index, t, candidates, t', candidates');
  }

  lemma PrunedStore(index: map<nat, CBlockIndex>, candidates: set<CBlockIndex>, t: Tables, b: CBlockIndex,
                    failed: set<CBlockIndex>, tip: CBlockIndex?)
    requires StoreOk(index, candidates, t) && b in t.data
    ensures StoreOk(index, candidates, Pruned(t, b))
    ensures b != tip && NothingLost(t, [], candidates, failed, tip) ==>
              (NothingLost(Pruned(t, b), [], candidates, failed, tip) <==> IsLinked(t, b) || InVain(t, failed, b))
  {
    PruneKeeps(t, b, candidates, failed, tip);
    hide NothingLost, Counted, IdsOk, Erased, InVain;
    forall c | c in candidates ensures IsLinked(Pruned(t, b), c) {
      assert IsLinked(t, c);
    }
  }

  lemma StoreFewer(index: map<nat, CBlockIndex>, candidates: set<CBlockIndex>, t: Tables, candidates': set<CBlockIndex>, unlinked: seq<Link>)
    requires StoreOk(index, candidates, t) && candidates' <= candidates && Counted(t.(unlinked := unlinked), [])
    ensures StoreOk(index, candidates', t.(unlinked := unlinked))
  {
    hide Counted, DistinctAddresses;
    var t' := t.(unlinked := unlinked);
    forall c | c in candidates' ensures IsLinked(t', c) {
      assert IsLinked(t, c);
    }
  }

  // Removing a chain that cannot be used keeps the store in order.
  lemma RemovalStore(index: map<nat, CBlockIndex>, candidates: set<CBlockIndex>, t: Tables, failed: set<CBlockIndex>, tip: CBlockIndex?,
                     c: CBlockIndex, x: CBlockIndex, failed': set<CBlockIndex>)
    requires StoreOk(index, candidates, t) && (x in failed || x !in t.data) && OnPath(c, x, c) && Tree(x)
    requires c in t.blocks && AllUsable(t, Elems(Span(c, x))) && failed <= failed'
    requires tip != null ==> tip !in Elems(Span(c, x))
    ensures var t' := t.(unlinked := t.unlinked + if x in failed then [] else LinksOf(Span(c, x)));
            var candidates' := candidates - Elems(Span(c, x)) - {x};
            && StoreOk(index, candidates', t')
            && (NothingLost(t, [], candidates, failed, tip) ==> NothingLost(t', [], candidates', failed', tip))
  {
    hide NothingLost, TakesOut, Counted, Shape, OnPath, Tree, AllUsable, Elems, Span, LinksOf, IdsOk;
    StoreShape(index, candidates, t);
    TakesOutPath(t, failed, c, x);
    var links := if x in failed then [] else LinksOf(Span(c, x));
    TakenOutKeeps(t, candidates, failed, tip, x, Elems(Span(c, x)), links, failed');
    StoreFewer(index, candidates, t, candidates - Elems(Span(c, x)) - {x}, t.unlinked + links);
  }

  lemma QueuedTrees(t: Tables, queue: seq<CBlockIndex>, p: CBlockIndex)
    requires Counted(t, queue) && p in t.data
    ensures Shape(t) && p in t.blocks && Tree(p) && (p.pprev != null ==> p.pprev in t.blocks)
  {
  }

  // ----- the store -----

  class CBlockStore {
    var mapBlockIndex: map<nat, CBlockIndex>
    var mapBlocksUnlinked: seq<Link>
    var setBlockIndexCandidates: set<CBlockIndex>
    var nBlockSequenceId: nat
    var pindexBestHeader: CBlockIndex?
    var pindexBestInvalid: CBlockIndex?

    /** The candidates so far that were found to be above a failed entry. */
    ghost var Noted: set<CBlockIndex>
    const chainActive: CChain

    ghost function Blocks(): set<CBlockIndex>
      reads `mapBlockIndex
    {
      mapBlockIndex.Values
    }

    ghost function Snap(): Tables
      reads `mapBlockIndex, `mapBlocksUnlinked, `nBlockSequenceId
      reads Blocks()`haveData, Blocks()`nTx, Blocks()`nChainTx, Blocks()`nSequenceId
    {
      Tables(Blocks(), set b | b in Blocks() && b.haveData, map b | b in Blocks() :: b.nTx,
             map b | b in Blocks() :: b.nChainTx, map b | b in Blocks() :: b.nSequenceId, mapBlocksUnlinked, nBlockSequenceId)
    }

    /** The fields of one entry are those in the tables. */
    ghost predicate Shows(t: Tables, b: CBlockIndex)
      reads b
    {
      && (b.haveData <==> b in t.data)
      && b in t.tx && t.tx[b] == b.nTx
      && b in t.chainTx && t.chainTx[b] == b.nChainTx
      && b in t.seqs && t.seqs[b] == b.nSequenceId
    }

    lemma SnapIs(t: Tables)
      requires t.blocks == Blocks() && t.data <= t.blocks
      requires t.tx.Keys == t.blocks && t.chainTx.Keys == t.blocks && t.seqs.Keys == t.blocks
      requires t.unlinked == mapBlocksUnlinked && t.next == nBlockSequenceId
      requires forall b :: b in Blocks() ==> Shows(t, b)
      ensures Snap() == t
    {
      var s := Snap();
      assert s.data == t.data by {
        forall b: CBlockIndex ensures b in s.data <==> b in t.data {
          if b in Blocks() {
            assert Shows(t, b);
          }
        }
      }
      forall b | b in Blocks() ensures s.tx[b] == t.tx[b] && s.chainTx[b] == t.chainTx[b] && s.seqs[b] == t.seqs[b] {
        assert Shows(t, b);
      }
      assert s.tx == t.tx && s.chainTx == t.chainTx && s.seqs == t.seqs;
    }

    lemma SnapShows()
      ensures forall b :: b in Blocks() ==> Shows(Snap(), b)
      ensures Snap().blocks == Blocks() && Snap().data <= Blocks()
      ensures Snap().tx.Keys == Blocks() && Snap().chainTx.Keys == Blocks() && Snap().seqs.Keys == Blocks()
      ensures Snap().unlinked == mapBlocksUnlinked && Snap().next == nBlockSequenceId
    {
    }

    lemma SnapBlocks()
      ensures Snap().blocks == Blocks() && Snap().unlinked == mapBlocksUnlinked
    {
    }

    lemma SnapLinks()
      ensures Snap().unlinked == mapBlocksUnlinked
    {
    }

    /**
     * Kept by every operation: counts go on from parents, and every candidate is linked;
     * no entry has more work than the best header, and none that was noted more than the
     * best invalid one.
     */
    ghost predicate Valid()
      reads `mapBlockIndex, `setBlockIndexCandidates, `mapBlocksUnlinked, `nBlockSequenceId
      reads `pindexBestHeader, `pindexBestInvalid, `Noted
      reads Blocks()`haveData, Blocks()`nTx, Blocks()`nChainTx, Blocks()`nSequenceId
    {
      && StoreOk(mapBlockIndex, setBlockIndexCandidates, Snap())
      && IsMostWork(pindexBestHeader, Blocks()) && IsMostWork(pindexBestInvalid, Noted)
    }

    ghost function Failed(): set<CBlockIndex>
      reads `mapBlockIndex, Blocks()`failedValid, Blocks()`failedChild
    {
      set b | b in Blocks() && (b.failedValid || b.failedChild)
    }

    ghost predicate ShowsFailed(failed: set<CBlockIndex>, b: CBlockIndex)
      reads b`failedValid, b`failedChild
    {
      b in failed <==> b.failedValid || b.failedChild
    }

    lemma FailedShows()
      ensures Failed() <= Blocks() && forall b :: b in Blocks() ==> ShowsFailed(Failed(), b)
    {
    }

    lemma FailedIs(s: set<CBlockIndex>)
      requires s <= Blocks() && forall b :: b in Blocks() ==> ShowsFailed(s, b)
      ensures Failed() == s
    {
      forall b: CBlockIndex ensures b in Failed() <==> b in s {
        assert b in Blocks() ==> ShowsFailed(s, b);
      }
    }

    lemma FailedAt(b: CBlockIndex)
      requires b in Blocks()
      ensures b in Failed() <==> b.failedValid || b.failedChild
    {
    }

    /** Nothing that was received is lost from sight. */
    ghost predicate NoneLost()
      reads this, Blocks(), chainActive
    {
      NothingLost(Snap(), [], setBlockIndexCandidates, Failed(), chainActive.Tip())
    }

    constructor (chain: CChain)
      ensures Noted == {}
      ensures Valid() && Blocks() == {} && chainActive == chain && setBlockIndexCandidates == {}
      ensures chain.Tip() == null ==> NoneLost()
      ensures Linking(Snap(), [])
    {
      mapBlockIndex, mapBlocksUnlinked, setBlockIndexCandidates, nBlockSequenceId := map[], [], {}, 1;
      pindexBestHeader, pindexBestInvalid, chainActive, Noted := null, null, chain, {};
    }

    // ----- adding a header -----

    lemma HeaderInserted(t: Tables, failed: set<CBlockIndex>, r: CBlockIndex)
      requires forall b :: b in Blocks() && b != r ==> Shows(t, b) && ShowsFailed(failed, b)
      requires r.nTx == r.nChainTx == r.nSequenceId == 0 && !r.haveData && !r.failedValid && !r.failedChild
      requires Shape(t) && r !in t.blocks && Blocks() == t.blocks + {r} && failed <= t.blocks
      requires t.unlinked == mapBlocksUnlinked && t.next == nBlockSequenceId
      ensures Snap() == WithEntry(t, r) && Failed() == failed
    {
      hide Tree, CBlockStore.Snap, CBlockStore.Failed;
      forall b | b in Blocks() ensures Shows(WithEntry(t, r), b) && ShowsFailed(failed, b) {
        assert b == r || (Shows(t, b) && ShowsFailed(failed, b));
      }
      SnapIs(WithEntry(t, r));
      FailedIs(failed);
    }

    method Insert(r: CBlockIndex)
      requires Valid() && r !in Blocks() && r.hash !in mapBlockIndex && forall b :: b in Blocks() ==> b.address != r.address
      requires Tree(r) && (r.pprev != null ==> r.pprev in Blocks())
      requires r.nTx == r.nChainTx == r.nSequenceId == 0 && !r.haveData && !r.failedValid && !r.failedChild
      modifies this`mapBlockIndex, this`pindexBestHeader
      ensures Valid() && mapBlockIndex == old(mapBlockIndex)[r.hash := r] && Snap() == WithEntry(old(Snap()), r)
      ensures (old(NoneLost()) ==> NoneLost()) && (old(Linking(Snap(), [])) ==> Linking(Snap(), []))
      ensures pindexBestHeader == BetterHeader(old(pindexBestHeader), r)
    {
      hide Linking, NothingLost, StoreOk, Tree, IsMostWork, CBlockStore.Snap, CBlockStore.Failed, CBlockStore.Shows;
      MostWorkWith(pindexBestHeader, Blocks(), r);
      SnapShows();
      FailedShows();
      StoreShape(mapBlockIndex, setBlockIndexCandidates, Snap());
      hide Shape, CBlockStore.ShowsFailed;
      ghost var before, failed := Snap(), Failed();
      HeaderStore(mapBlockIndex, setBlockIndexCandidates, before, r, failed, chainActive.Tip());
      if Linking(before, []) {
        NewEntryKeeps(before, r);
      }
      assert mapBlockIndex[r.hash := r].Values == Blocks() + {r};
      mapBlockIndex := mapBlockIndex[r.hash := r];
      if pindexBestHeader == null || pindexBestHeader.nChainWork < r.nChainWork {
        pindexBestHeader := r;
      }
      forall b | b in Blocks() && b != r ensures Shows(before, b) && ShowsFailed(failed, b) {
        assert old(Shows(before, b) && ShowsFailed(failed, b));
      }
      HeaderInserted(before, failed, r);
    }

    method AddHeader(hash: nat, hashPrev: nat, proof: nat, address: nat) returns (r: CBlockIndex)
      requires Valid() && hash !in mapBlockIndex && forall b :: b in Blocks() ==> b.address != address
      modifies this`mapBlockIndex, this`pindexBestHeader
      ensures Valid() && (old(NoneLost()) ==> NoneLost()) && (old(Linking(Snap(), [])) ==> Linking(Snap(), []))
      ensures fresh(r) && r.hash == hash && mapBlockIndex == old(mapBlockIndex)[hash := r]
      ensures r.pprev == (if old(hashPrev in mapBlockIndex) then old(mapBlockIndex[hashPrev]) else null)
      ensures Snap() == WithEntry(old(Snap()), r) && Tree(r)
      ensures r.nHeight == (if r.pprev == null then 0 else r.pprev.nHeight + 1)
      ensures r.nChainWork == (if r.pprev == null then 0 else r.pprev.nChainWork) + proof
      ensures pindexBestHeader == BetterHeader(old(pindexBestHeader), r)
    {
      hide Linking, StoreOk, NothingLost, Shape, Tree, WithEntry, IsMostWork, CBlockStore.Snap, CBlockStore.NoneLost;
      StoreShape(mapBlockIndex, setBlockIndexCandidates, Snap());
      hide CBlockStore.Valid;
      var prev: CBlockIndex? := null;
      if hashPrev in mapBlockIndex {
        prev := mapBlockIndex[hashPrev];
      }
      r := new CBlockIndex(hash, address, proof, prev);
      assert r !in Blocks() && (r.pprev != null ==> r.pprev in Blocks());
      Insert(r);
    }

    method AddToBlockIndex(hash: nat, hashPrev: nat, proof: nat, address: nat) returns (r: CBlockIndex)
      requires Valid() && forall b :: b in Blocks() ==> b.address != address
      modifies this`mapBlockIndex, this`pindexBestHeader
      ensures Valid() && (old(NoneLost()) ==> NoneLost()) && (old(Linking(Snap(), [])) ==> Linking(Snap(), []))
      ensures old(hash in mapBlockIndex) ==>
                && r == old(mapBlockIndex[hash]) && Snap() == old(Snap())
                && mapBlockIndex == old(mapBlockIndex) && pindexBestHeader == old(pindexBestHeader)
      ensures old(hash !in mapBlockIndex) ==>
                && fresh(r) && r.hash == hash && mapBlockIndex == old(mapBlockIndex)[hash := r]
                && r.pprev == (if old(hashPrev in mapBlockIndex) then old(mapBlockIndex[hashPrev]) else null)
                && Snap() == WithEntry(old(Snap()), r)
                && r.nHeight == (if r.pprev == null then 0 else r.pprev.nHeight + 1) && Tree(r)
                && r.nChainWork == (if r.pprev == null then 0 else r.pprev.nChainWork) + proof
                && pindexBestHeader == BetterHeader(old(pindexBestHeader), r)
    {
      hide Linking, StoreOk, NothingLost, Tree, WithEntry, IsMostWork, CBlockStore.Snap, CBlockStore.Valid, CBlockStore.NoneLost;
      if hash in mapBlockIndex {
        return mapBlockIndex[hash];
      }
      r := AddHeader(hash, hashPrev, proof, address);
    }

    // ----- receiving a block -----

    lemma TipShows()
      ensures forall b :: b in Blocks() ==> Shows(Snap(), b)
    {
    }

    lemma EntryShows(t: Tables, p: CBlockIndex)
      requires p in Blocks() && (p.pprev != null ==> p.pprev in Blocks())
      requires forall b :: b in Blocks() ==> Shows(t, b)
      ensures (p.haveData <==> p in t.data) && p in t.tx && t.tx[p] == p.nTx
      ensures p.pprev != null ==> p.pprev in t.chainTx && t.chainTx[p.pprev] == p.pprev.nChainTx
    {
      assert Shows(t, p) && (p.pprev != null ==> Shows(t, p.pprev));
    }

    lemma ShowsLinked(t: Tables, p: CBlockIndex)
      requires Shape(t) && p in t.blocks && t.blocks == Blocks()
      requires forall c :: c in Blocks() && c != p ==> Shows(t, c)
      requires (p.haveData <==> p in t.data) && t.tx[p] == p.nTx
      requires p.nChainTx == (if p.pprev == null then 0 else t.chainTx[p.pprev]) + p.nTx && p.nSequenceId == t.next
      ensures forall c :: c in Blocks() ==> Shows(LinkFront(t, p).(unlinked := mapBlocksUnlinked), c)
    {
      hide Tree, Children, Others;
      forall c | c in Blocks() ensures Shows(LinkFront(t, p).(unlinked := mapBlocksUnlinked), c) {
        assert c == p || Shows(t, c);
      }
    }

    method SetLinked(p: CBlockIndex)
      requires Shape(Snap()) && p in Blocks() && Tree(p) && (p.pprev != null ==> p.pprev in Blocks())
      modifies this`nBlockSequenceId, p`nChainTx, p`nSequenceId
      ensures nBlockSequenceId == old(nBlockSequenceId) + 1
      ensures Snap() == LinkFront(old(Snap()), p).(unlinked := old(mapBlocksUnlinked))
      ensures forall b :: b in Blocks() ==> Shows(Snap(), b)
    {
      hide Shape, LinkFront, CBlockStore.Snap, CBlockStore.Shows;
      SnapShows();
      ghost var t := Snap();
      LinkedTables(t, p);
      ParentIsOther(p);
      EntryShows(t, p);
      hide Tree;
      p.nChainTx := (if p.pprev != null then p.pprev.nChainTx else 0) + p.nTx;
      p.nSequenceId := nBlockSequenceId;
      nBlockSequenceId := nBlockSequenceId + 1;
      forall c | c in Blocks() && c != p ensures Shows(t, c) {
        assert old(Shows(t, c));
      }
      ShowsLinked(t, p);
      SnapIs(LinkFront(t, p).(unlinked := mapBlocksUnlinked));
    }

    lemma ComparesTip(t: Tables, p: CBlockIndex, tip: CBlockIndex?)
      requires Shows(t, p) && (tip != null ==> Shows(t, tip))
      ensures Competes(t, p, tip) <==> tip == null || !WorkLess(p, tip)
    {
    }

    /** Gives an entry its count and sequence id, and makes it a candidate unless the tip is better. */
    method LinkEntry(p: CBlockIndex)
      requires Shape(Snap()) && p in Blocks() && Tree(p) && (p.pprev != null ==> p.pprev in Blocks())
      requires chainActive.Tip() != null ==> chainActive.Tip() in Blocks()
      modifies this`setBlockIndexCandidates, this`nBlockSequenceId, p`nChainTx, p`nSequenceId
      ensures nBlockSequenceId == old(nBlockSequenceId) + 1
      ensures Snap() == LinkFront(old(Snap()), p).(unlinked := old(mapBlocksUnlinked))
      ensures setBlockIndexCandidates
              == old(setBlockIndexCandidates) + if Competes(Snap(), p, chainActive.Tip()) then {p} else {}
    {
      hide Shape, Tree, Worse, Competes, LinkFront, CBlockStore.Shows;
      TipShows();
      SetLinked(p);
      hide CBlockStore.Snap;
      ghost var t' := Snap();
      var competes := chainActive.Tip() == null || !WorkLess(p, chainActive.Tip());
      ComparesTip(t', p, chainActive.Tip());
      if competes {
        setBlockIndexCandidates := setBlockIndexCandidates + {p};
      }
      SnapIs(t');
    }

    /** Takes out the links of an entry; its children are returned in their order. */
    method TakeChildren(p: CBlockIndex) returns (kids: seq<CBlockIndex>)
      modifies this`mapBlocksUnlinked
      ensures kids == Children(old(mapBlocksUnlinked), p) && Snap() == old(Snap()).(unlinked := Others(old(mapBlocksUnlinked), p))
    {
      SnapShows();
      ghost var t := Snap();
      var u := mapBlocksUnlinked;
      var rest: seq<Link> := [];
      kids := [];
      for i := 0 to |u|
        invariant kids == Children(u[..i], p) && rest == Others(u[..i], p)
      {
        assert u[..i + 1][..i] == u[..i];
        if u[i].parent == p {
          kids := kids + [u[i].child];
        } else {
          rest := rest + [u[i]];
        }
      }
      assert u[..|u|] == u;
      mapBlocksUnlinked := rest;
      SnapIs(t.(unlinked := rest));
    }

    /** Links an entry, and then everything that waited for an entry linked before. */
    method LinkQueue(first: CBlockIndex)
      requires Counted(Snap(), [first])
      requires chainActive.Tip() != null ==> chainActive.Tip() in Blocks()
      modifies this`setBlockIndexCandidates, this`mapBlocksUnlinked, this`nBlockSequenceId
      modifies Blocks()`nChainTx, Blocks()`nSequenceId
      ensures (Snap(), setBlockIndexCandidates) == Drain(old(Snap()), [first], old(setBlockIndexCandidates), chainActive.Tip())
    {
      hide Counted, Shape, Tree, LinkFront, Children, Others, Worse, Relinked, NextQueue, CBlockStore.Snap;
      var queue := [first];
      while queue != []
        invariant Counted(Snap(), queue)
        invariant Drain(Snap(), queue, setBlockIndexCandidates, chainActive.Tip())
                  == Drain(old(Snap()), [first], old(setBlockIndexCandidates), chainActive.Tip())
        decreases |Snap().unlinked| + |queue|
      {
        ghost var t := Snap();
        SnapBlocks();
        var p := queue[0];
        DrainNext(t, queue, setBlockIndexCandidates, chainActive.Tip());
        LinksSplit(t.unlinked, p);
        QueuedTrees(t, queue, p);
        TakenLinks(t, p, t.unlinked);
        queue := queue[1..];
        LinkEntry(p);
        var kids := TakeChildren(p);
        queue := queue + kids;
        assert Snap() == LinkFront(t, p);
      }
    }

    method AddLink(l: Link)
      modifies this`mapBlocksUnlinked
      ensures Snap() == old(Snap()).(unlinked := old(Snap()).unlinked + [l])
    {
      SnapShows();
      ghost var t := Snap();
      mapBlocksUnlinked := mapBlocksUnlinked + [l];
      SnapIs(t.(unlinked := t.unlinked + [l]));
    }

    lemma EntryData(t: Tables, b: CBlockIndex)
      requires b in Blocks() && forall c :: c in Blocks() ==> Shows(t, c)
      ensures b in t.seqs && t.seqs[b] == b.nSequenceId
    {
      assert Shows(t, b);
    }

    lemma ShowsAfter(t: Tables, t0: Tables, b: CBlockIndex)
      requires forall c :: c in Blocks() && c != b ==> Shows(t0, c)
      requires t0.blocks == Blocks() && b in Blocks() && b.haveData && b.nChainTx == 0 && t == WithData(t0, b, b.nTx)
      requires b in t0.seqs && t0.seqs[b] == b.nSequenceId
      ensures forall c :: c in Blocks() ==> Shows(t, c)
    {
      forall c | c in Blocks() ensures Shows(t, c) {
        assert c == b || Shows(t0, c);
      }
    }

    method SetData(b: CBlockIndex, n: nat)
      requires b in Blocks()
      modifies b`nTx, b`nChainTx, b`haveData
      ensures Snap() == WithData(old(Snap()), b, n)
    {
      SnapShows();
      ghost var t := Snap();
      EntryData(t, b);
      hide CBlockStore.Snap, CBlockStore.Shows;
      b.nTx := n;
      b.nChainTx := 0;
      b.haveData := true;
      forall c | c in Blocks() && c != b ensures Shows(t, c) {
        assert old(Shows(t, c));
      }
      ShowsAfter(WithData(t, b, n), t, b);
      SnapIs(WithData(t, b, n));
    }

    method StoreBlock(b: CBlockIndex, n: nat)
      requires b in Blocks() && Arrives(Snap(), b, n) && (b.pprev != null ==> b.pprev in Blocks() && b.pprev != b)
      requires ParentLinked(Snap(), b) <==> b.pprev == null || b.pprev.nChainTx != 0
      requires chainActive.Tip() != null ==> chainActive.Tip() in Blocks()
      modifies this`setBlockIndexCandidates, this`mapBlocksUnlinked, this`nBlockSequenceId
      modifies Blocks()`nTx, Blocks()`haveData, Blocks()`nChainTx, Blocks()`nSequenceId
      ensures (Snap(), setBlockIndexCandidates)
              == Received(old(Snap()), old(setBlockIndexCandidates), b, n,
                          b.pprev != null && (b.pprev.failedValid || b.pprev.failedChild), chainActive.Tip())
    {
      hide Arrives, LinkFront, Counted, ParentLinked, CBlockStore.Snap;
      ghost var t0 := Snap();
      SetData(b, n);
      if b.pprev == null || b.pprev.nChainTx != 0 {
        ArrivedQueued(t0, b, n);
        LinkQueue(b);
      } else if !(b.pprev.failedValid || b.pprev.failedChild) {
        AddLink(Link(b.pprev, b));
      }
    }

    lemma ArrivesNow(b: CBlockIndex, n: nat)
      requires Valid() && b in Blocks() && !b.haveData && n >= 1 && (b.nTx != 0 ==> n == b.nTx)
      ensures Arrives(Snap(), b, n)
      ensures b.pprev != null ==> b.pprev in Blocks() && b.pprev != b
      ensures ParentLinked(Snap(), b) <==> b.pprev == null || b.pprev.nChainTx != 0
    {
      SnapShows();
      assert Shows(Snap(), b);
      hide CBlockStore.Snap;
      StoreShape(mapBlockIndex, setBlockIndexCandidates, Snap());
      if b.pprev != null {
        assert Shows(Snap(), b.pprev);
        ParentIsBelow(Snap(), b);
      }
      hide Counted, IdsOk, Shape, Tree;
    }

    /**
     * Data for an entry; everything that was waiting for it is linked in turn.
     * The block may have been here before and been deleted.
     */
    method ReceivedBlockTransactions(b: CBlockIndex, n: nat)
      requires Valid() && b in Blocks() && !b.haveData && n >= 1 && (b.nTx != 0 ==> n == b.nTx)
      requires chainActive.Tip() != null ==> chainActive.Tip() in Blocks()
      modifies this`setBlockIndexCandidates, this`mapBlocksUnlinked, this`nBlockSequenceId
      modifies Blocks()`nTx, Blocks()`haveData, Blocks()`nChainTx, Blocks()`nSequenceId
      ensures Valid() && Arrives(old(Snap()), b, n)
      ensures (Snap(), setBlockIndexCandidates)
              == Received(old(Snap()), old(setBlockIndexCandidates), b, n,
                          b.pprev != null && (b.pprev.failedValid || b.pprev.failedChild), chainActive.Tip())
      ensures old(NoneLost()) && !(b.failedValid || b.failedChild) ==>
                (NoneLost() <==> old(ParentLinked(Snap(), b)) || !(b.pprev.failedValid || b.pprev.failedChild)
                                 || old(InVain(Snap(), Failed(), b.pprev)))
    {
      hide StoreOk, NothingLost, Arrives, Counted, Received, InVain, CBlockStore.Snap, CBlockStore.Failed, CBlockStore.Shows, CBlockStore.ShowsFailed;
      ArrivesNow(b, n);
      ghost var t0, candidates, failed := Snap(), setBlockIndexCandidates, Failed();
      FailedShows();
      FailedAt(b);
      ghost var parentFailed := b.pprev != null && (b.pprev.failedValid || b.pprev.failedChild);
      ReceivedStore(mapBlockIndex, candidates, t0, b, n, parentFailed, chainActive.Tip());
      ReceivedKeeps(t0, candidates, failed, b, n, parentFailed, chainActive.Tip());
      StoreBlock(b, n);
      forall c | c in Blocks() ensures ShowsFailed(failed, c) {
        assert old(ShowsFailed(failed, c));
      }
      FailedIs(failed);
    }

    // ----- deleting old data -----

    /** The inner loop over the links of the parent. */
    method EraseLink(l: Link)
      modifies this`mapBlocksUnlinked
      ensures mapBlocksUnlinked == Erased(old(mapBlocksUnlinked), l)
    {
      var u := mapBlocksUnlinked;
      var rest: seq<Link> := [];
      for i := 0 to |u|
        invariant rest == Erased(u[..i], l)
      {
        assert u[..i + 1][..i] == u[..i];
        if u[i] != l {
          rest := rest + [u[i]];
        }
      }
      assert u[..|u|] == u;
      mapBlocksUnlinked := rest;
    }

    lemma PruneNow(b: CBlockIndex)
      requires Valid() && b in Blocks() && b.haveData
      ensures b in Snap().data && (IsLinked(Snap(), b) <==> b.nChainTx != 0)
      ensures b in Snap().tx && Snap().tx[b] == b.nTx && b in Snap().chainTx && Snap().chainTx[b] == b.nChainTx
      ensures b in Snap().seqs && Snap().seqs[b] == b.nSequenceId
    {
      SnapShows();
      assert Shows(Snap(), b);
    }

    lemma PrunedSnap(t: Tables, b: CBlockIndex)
      requires t.blocks == Blocks() && t.data <= Blocks() && b in Blocks() && !b.haveData
      requires t.tx.Keys == t.blocks && t.chainTx.Keys == t.blocks && t.seqs.Keys == t.blocks
      requires forall c :: c in Blocks() && c != b ==> Shows(t, c)
      requires b.nTx == t.tx[b] && b.nChainTx == t.chainTx[b] && b.nSequenceId == t.seqs[b]
      requires mapBlocksUnlinked == Pruned(t, b).unlinked && nBlockSequenceId == t.next
      ensures Snap() == Pruned(t, b)
    {
      hide CBlockStore.Snap, Erased;
      forall c | c in Blocks() ensures Shows(Pruned(t, b), c) {
        assert c == b || Shows(t, c);
      }
      SnapIs(Pruned(t, b));
    }

    /** One entry of a block file that is deleted. */
    method PruneEntry(b: CBlockIndex)
      requires Valid() && b in Blocks() && b.haveData
      modifies this`mapBlocksUnlinked, b`haveData
      ensures Valid() && Snap() == Pruned(old(Snap()), b)
      ensures b != chainActive.Tip() && old(NoneLost()) ==> (NoneLost() <==> b.nChainTx != 0 || old(InVain(Snap(), Failed(), b)))
    {
      hide StoreOk, NothingLost, InVain, CBlockStore.Snap, CBlockStore.Failed, CBlockStore.Shows;
      SnapShows();
      ghost var t := Snap();
      PruneNow(b);
      PrunedStore(mapBlockIndex, setBlockIndexCandidates, t, b, Failed(), chainActive.Tip());
      b.haveData := false;
      if b.pprev != null {
        EraseLink(Link(b.pprev, b));
      }
      forall c | c in Blocks() && c != b ensures Shows(t, c) {
        assert old(Shows(t, c));
      }
      PrunedSnap(t, b);
    }

    // ----- choosing the tip to move to -----

    ghost function AllFields(): map<CBlockIndex, Fields>
      reads `mapBlockIndex, Blocks()`nSequenceId, Blocks()`nChainTx, Blocks()`haveData, Blocks()`failedValid
    {
      map b | b in Blocks() :: Fields(b.nSequenceId, b.nChainTx, b.haveData, b.failedValid)
    }

    /** Entries marked because of an ancestor. */
    ghost function Marked(): set<CBlockIndex>
      reads `mapBlockIndex, Blocks()`failedChild
    {
      set b | b in Blocks() && b.failedChild
    }

    ghost predicate Grown()
      reads `mapBlockIndex, `setBlockIndexCandidates
      reads Blocks()`nSequenceId, Blocks()`nChainTx, Blocks()`haveData, Blocks()`failedValid
    {
      GrownOk(AllFields(), setBlockIndexCandidates)
    }

    lemma ValidIsGrown()
      requires Valid()
      ensures Grown()
    {
    }

    lemma GrownNow()
      requires Grown()
      ensures AllFields().Keys == Blocks() && DistinctAddresses(Blocks()) && setBlockIndexCandidates <= Blocks()
      ensures forall b :: b in Blocks() ==> Tree(b) && (b.pprev != null ==> b.pprev in Blocks())
      ensures forall b :: b in Blocks() && b.nChainTx != 0 && b.pprev != null ==> b.pprev.nChainTx != 0
      ensures forall c :: c in setBlockIndexCandidates ==> c.nChainTx != 0
      ensures forall b :: b in Blocks() ==> AllFields()[b] == Fields(b.nSequenceId, b.nChainTx, b.haveData, b.failedValid)
      ensures forall b :: b in Blocks() ==> (b in BadEntries(AllFields(), Marked()) <==> b.failedValid || b.failedChild || !b.haveData)
    {
      var fields := AllFields();
      forall b | b in Blocks() && b.nChainTx != 0 && b.pprev != null ensures b.pprev.nChainTx != 0 {
        assert fields[b].count != 0;
        assert fields[b.pprev].count != 0;
      }
    }

    lemma CandidatesAreEntries()
      requires Grown()
      ensures setBlockIndexCandidates <= Blocks() && forall c :: c in setBlockIndexCandidates ==> c.nChainTx != 0
    {
      GrownNow();
    }

    /** The last entry in the order of the candidates. */
    method Greatest() returns (r: CBlockIndex)
      requires Grown() && setBlockIndexCandidates != {}
      ensures r in setBlockIndexCandidates
      ensures IsGreatest(AllFields(), setBlockIndexCandidates, r)
    {
      hide Tree;
      GrownNow();
      hide GrownOk;
      r :| r in setBlockIndexCandidates;
      var rest := setBlockIndexCandidates - {r};
      while rest != {}
        invariant rest <= setBlockIndexCandidates && r in setBlockIndexCandidates && r !in rest
        invariant forall c :: c in setBlockIndexCandidates && c != r && c !in rest ==> WorkLess(c, r)
        decreases rest
      {
        var c :| c in rest;
        rest := rest - {c};
        if WorkLess(r, c) {
          r := c;
        }
      }
      hide Worse;
    }

    /** Between `c` and `t` nothing is missing. */
    ghost predicate PathUsable(c: CBlockIndex, t: CBlockIndex)
      reads `mapBlockIndex, Blocks()`haveData, Blocks()`nChainTx
    {
      forall s :: s in Blocks() && OnPath(c, t, s) && s != t ==> s.haveData && s.nChainTx != 0
    }

    lemma PathUsableNone(c: CBlockIndex)
      ensures PathUsable(c, c)
    {
      forall s | s in Blocks() && OnPath(c, c, s) ensures s == c {
        SameHeight(c, s, c);
      }
    }

    lemma EntryNow(b: CBlockIndex)
      requires Grown() && b in Blocks()
      ensures Tree(b) && (b.pprev != null ==> b.pprev in Blocks() && (b.nChainTx != 0 ==> b.pprev.nChainTx != 0))
      ensures b in BadEntries(AllFields(), Marked()) <==> b.failedValid || b.failedChild || !b.haveData
    {
      GrownNow();
    }

    lemma PathUsableBelow(c: CBlockIndex, t: CBlockIndex)
      requires PathUsable(c, t) && OnPath(c, t, t) && t.haveData && t.nChainTx != 0
      requires t.pprev != null && OnPath(c, t.pprev, t.pprev) && t.pprev.nHeight == t.nHeight - 1
      ensures PathUsable(c, t.pprev)
    {
      forall s | s in Blocks() && OnPath(c, t.pprev, s) && s != t.pprev ensures s.haveData && s.nChainTx != 0 {
        SameHeight(c, s, t.pprev);
        assert s == t || OnPath(c, t, s);
      }
    }

    /** The first entry on the way down to the active chain that failed or has no data. */
    method FirstBad(c: CBlockIndex) returns (t: CBlockIndex?)
      requires Grown() && c in Blocks() && c.nChainTx != 0
      ensures Tree(c)
      ensures t == null ==> Usable(chainActive.vChain, BadEntries(AllFields(), Marked()), c)
      ensures t != null ==>
                && t in BadEntries(AllFields(), Marked()) && t in Blocks() && !InChain(chainActive.vChain, t)
                && OnPath(c, t, t) && OnPath(c, t, c) && t.nChainTx != 0 && PathUsable(c, t)
                && !Usable(chainActive.vChain, BadEntries(AllFields(), Marked()), c)
    {
      hide Tree, Ancestor, BadEntries, CBlockStore.Grown, CBlockStore.AllFields, CBlockStore.Marked, CBlockStore.PathUsable;
      EntryNow(c);
      PathUsableNone(c);
      ghost var v, bad := chainActive.vChain, BadEntries(AllFields(), Marked());
      t := c;
      OwnAncestor(c);
      while t != null && !chainActive.Contains(t)
        invariant t != null ==> t in Blocks() && t.nChainTx != 0 && OnPath(c, t, t) && PathUsable(c, t)
        invariant Usable(v, bad, c) <==> t == null || Usable(v, bad, t)
        decreases if t == null then 0 else t.nHeight + 1
      {
        EntryNow(t);
        assert t.nChainTx != 0;
        if t.failedValid || t.failedChild || !t.haveData {
          return;
        }
        ParentIs(c, t);
        if t.pprev != null {
          PathUsableBelow(c, t);
        }
        t := t.pprev;
      }
      t := null;
    }

    method MarkChild(f: CBlockIndex)
      requires f in Blocks()
      modifies f`failedChild
      ensures AllFields() == old(AllFields()) && Marked() == old(Marked()) + {f}
    {
      f.failedChild := true;
    }

    lemma GrownIsClosed()
      requires Grown()
      ensures ClosedUnderParents(Blocks())
    {
      GrownNow();
    }

    method InsertLink(l: Link)
      modifies this`mapBlocksUnlinked
      ensures mapBlocksUnlinked == old(mapBlocksUnlinked) + [l]
      ensures AllFields() == old(AllFields()) && Marked() == old(Marked())
      ensures setBlockIndexCandidates == old(setBlockIndexCandidates)
    {
      mapBlocksUnlinked := mapBlocksUnlinked + [l];
    }

    method EraseCandidate(c: CBlockIndex)
      modifies this`setBlockIndexCandidates
      ensures setBlockIndexCandidates == old(setBlockIndexCandidates) - {c}
      ensures AllFields() == old(AllFields()) && Marked() == old(Marked()) && mapBlocksUnlinked == old(mapBlocksUnlinked)
    {
      setBlockIndexCandidates := setBlockIndexCandidates - {c};
    }

    method PassEntry(f: CBlockIndex, failedChain: bool)
      requires f in Blocks() && f.pprev != null
      modifies this`mapBlocksUnlinked, this`setBlockIndexCandidates, f`failedChild
      ensures AllFields() == old(AllFields()) && setBlockIndexCandidates == old(setBlockIndexCandidates) - {f}
      ensures Marked() == if failedChain then old(Marked()) + {f} else old(Marked())
      ensures mapBlocksUnlinked == if failedChain then old(mapBlocksUnlinked) else old(mapBlocksUnlinked) + [Link(f.pprev, f)]
    {
      hide CBlockStore.Marked, CBlockStore.AllFields;
      if failedChain {
        MarkChild(f);
      } else {
        InsertLink(Link(f.pprev, f));
      }
      EraseCandidate(f);
    }

    method PassAll(c: CBlockIndex, t: CBlockIndex, failedChain: bool)
      requires c in Blocks() && OnPath(c, t, c) && t.nHeight <= c.nHeight
      requires ClosedUnderParents(Blocks())
      modifies this`mapBlocksUnlinked, this`setBlockIndexCandidates, Blocks()`failedChild
      ensures AllFields() == old(AllFields())
      ensures var above := Span(c, t);
              && PathSet(c, t, Elems(above)) && c in Elems(above) + {t}
              && setBlockIndexCandidates == old(setBlockIndexCandidates) - Elems(above)
              && Marked() == (if failedChain then old(Marked()) + Elems(above) else old(Marked()))
              && mapBlocksUnlinked == (if failedChain then old(mapBlocksUnlinked) else old(mapBlocksUnlinked) + LinksOf(above))
    {
      hide OnPath, PathSet, Elems, LinksOf, Span, CBlockStore.Marked, CBlockStore.AllFields;
      ghost var cands, marked, links := setBlockIndexCandidates, Marked(), mapBlocksUnlinked;
      var f: CBlockIndex := c;
      ghost var passed: seq<CBlockIndex> := [];
      NothingPassed(c, t, cands, marked, links, Span(c, t));
      while f != t
        invariant f in Blocks() && OnPath(c, t, f) && t.nHeight <= f.nHeight
        invariant passed + Span(f, t) == Span(c, t)
        invariant PathSet(c, t, Elems(passed)) && c in Elems(passed) + {f}
        invariant AllFields() == old(AllFields()) && setBlockIndexCandidates == cands - Elems(passed)
        invariant Marked() == if failedChain then marked + Elems(passed) else marked
        invariant mapBlocksUnlinked == if failedChain then links else links + LinksOf(passed)
        decreases f.nHeight
      {
        ParentOnPath(c, t, f);
        PassOne(c, t, f, passed, links);
        PassedSets(cands, marked, passed, f);
        PassEntry(f, failedChain);
        passed := passed + [f];
        f := f.pprev;
      }
      NothingAbove(t, passed);
    }

    /** Takes the candidates from `c` down to `t` out, and marks or links what is between. */
    method RemoveChain(c: CBlockIndex, t: CBlockIndex)
      requires Grown() && c in Blocks() && t in Blocks() && OnPath(c, t, t) && OnPath(c, t, c)
      modifies this`mapBlocksUnlinked, this`setBlockIndexCandidates, Blocks()`failedChild
      ensures AllFields() == old(AllFields())
      ensures var above := Span(c, t);
              && PathSet(c, t, Elems(above)) && c in Elems(above) + {t}
              && setBlockIndexCandidates == old(setBlockIndexCandidates) - Elems(above) - {t}
              && Marked() == (if old(t.failedValid || t.failedChild) then old(Marked()) + Elems(above) else old(Marked()))
              && mapBlocksUnlinked
                 == (if old(t.failedValid || t.failedChild) then old(mapBlocksUnlinked) else old(mapBlocksUnlinked) + LinksOf(above))
    {
      GrownIsClosed();
      hide OnPath, PathSet, Elems, LinksOf, Span, CBlockStore.Marked, CBlockStore.AllFields, CBlockStore.Grown;
      NothingPassed(c, t, setBlockIndexCandidates, Marked(), mapBlocksUnlinked, Span(c, t));
      PassAll(c, t, t.failedValid || t.failedChild);
      EraseCandidate(t);
    }

    lemma FailedParts()
      ensures Failed() == Marked() + FailedFields(AllFields())
    {
    }

    /** The tables lose or gain links only. */
    method RemoveCounted(c: CBlockIndex, t: CBlockIndex)
      requires Grown() && c in Blocks() && t in Blocks() && OnPath(c, t, t) && OnPath(c, t, c)
      modifies this`mapBlocksUnlinked, this`setBlockIndexCandidates, Blocks()`failedChild
      ensures AllFields() == old(AllFields())
      ensures var above := Span(c, t);
              && PathSet(c, t, Elems(above)) && c in Elems(above) + {t}
              && setBlockIndexCandidates == old(setBlockIndexCandidates) - Elems(above) - {t}
              && Marked() == (if old(t.failedValid || t.failedChild) then old(Marked()) + Elems(above) else old(Marked()))
              && mapBlocksUnlinked
                 == (if old(t.failedValid || t.failedChild) then old(mapBlocksUnlinked) else old(mapBlocksUnlinked) + LinksOf(above))
      ensures Snap() == old(Snap()).(unlinked := mapBlocksUnlinked) && old(Failed()) <= Failed()
    {
      SnapShows();
      FailedParts();
      hide OnPath, PathSet, Span, Elems, LinksOf, FailedFields;
      hide CBlockStore.Snap, CBlockStore.Failed, CBlockStore.Marked, CBlockStore.AllFields, CBlockStore.Grown;
      ghost var before := Snap();
      RemoveChain(c, t);
      FailedParts();
      forall b | b in Blocks() ensures Shows(before, b) {
        assert old(Shows(before, b));
      }
      SnapIs(before.(unlinked := mapBlocksUnlinked));
    }

    /** Notes a chain with a failed entry. */
    method NoteInvalid(c: CBlockIndex)
      modifies this`pindexBestInvalid, this`Noted
      ensures mapBlockIndex == old(mapBlockIndex) && setBlockIndexCandidates == old(setBlockIndexCandidates)
      ensures AllFields() == old(AllFields()) && Marked() == old(Marked())
      ensures pindexBestInvalid == BetterHeader(old(pindexBestInvalid), c) && Noted == old(Noted) + {c}
      ensures old(IsMostWork(pindexBestInvalid, Noted)) ==> IsMostWork(pindexBestInvalid, Noted)
      ensures Blocks() == old(Blocks()) && (Grown() <==> old(Grown())) && Snap() == old(Snap()) && Failed() == old(Failed())
    {
      if IsMostWork(pindexBestInvalid, Noted) {
        MostWorkWith(pindexBestInvalid, Noted, c);
      }
      Noted := Noted + {c};
      if pindexBestInvalid == null || c.nChainWork > pindexBestInvalid.nChainWork {
        pindexBestInvalid := c;
      }
    }

    /** Remembers the best chain with a failed block, and removes the chain. */
    method RemoveNoted(c: CBlockIndex, t: CBlockIndex)
      requires Grown() && c in Blocks() && t in Blocks() && OnPath(c, t, t) && OnPath(c, t, c)
      modifies this`mapBlocksUnlinked, this`setBlockIndexCandidates, this`pindexBestInvalid, this`Noted, Blocks()`failedChild
      ensures AllFields() == old(AllFields())
      ensures Noted == (if old(t.failedValid || t.failedChild) then old(Noted) + {c} else old(Noted))
      ensures old(IsMostWork(pindexBestInvalid, Noted)) ==> IsMostWork(pindexBestInvalid, Noted)
      ensures pindexBestInvalid == if old(t.failedValid || t.failedChild) then BetterHeader(old(pindexBestInvalid), c) else old(pindexBestInvalid)
      ensures var above := Span(c, t);
              && PathSet(c, t, Elems(above)) && c in Elems(above) + {t}
              && setBlockIndexCandidates == old(setBlockIndexCandidates) - Elems(above) - {t}
              && Marked() == (if old(t.failedValid || t.failedChild) then old(Marked()) + Elems(above) else old(Marked()))
              && mapBlocksUnlinked
                 == (if old(t.failedValid || t.failedChild) then old(mapBlocksUnlinked) else old(mapBlocksUnlinked) + LinksOf(above))
      ensures Snap() == old(Snap()).(unlinked := mapBlocksUnlinked) && old(Failed()) <= Failed()
    {
      hide OnPath, PathSet, Span, Elems, LinksOf;
      hide CBlockStore.Snap, CBlockStore.Failed, CBlockStore.Marked, CBlockStore.AllFields, CBlockStore.Grown, IsMostWork;
      if t.failedValid || t.failedChild {
        NoteInvalid(c);
      }
      RemoveCounted(c, t);
    }

    lemma SpanUsable(c: CBlockIndex, t: CBlockIndex)
      requires PathUsable(c, t) && forall b :: b in Blocks() ==> Shows(Snap(), b)
      requires forall x :: x in Elems(Span(c, t)) ==> x in Blocks() && x.nHeight > t.nHeight && OnPath(c, t, x)
      ensures AllUsable(Snap(), Elems(Span(c, t)))
    {
      hide OnPath, Span, Elems, CBlockStore.Snap;
      forall x | x in Elems(Span(c, t)) ensures x in Snap().data && IsLinked(Snap(), x) {
        assert Shows(Snap(), x);
      }
    }

    lemma TipNotAbove(c: CBlockIndex, t: CBlockIndex)
      requires IsChain(chainActive.vChain) && !InChain(chainActive.vChain, t)
      requires forall x :: x in Elems(Span(c, t)) ==> OnPath(c, t, x)
      ensures chainActive.Tip() != null ==> chainActive.Tip() !in Elems(Span(c, t))
    {
      TipIsTree(chainActive.vChain);
      AboveOffChain(chainActive.vChain, c, t, Elems(Span(c, t)));
      hide OnPath, Span, Elems, Tree;
    }

    lemma BeforeRemoval(c: CBlockIndex, t: CBlockIndex)
      requires Grown() && IsChain(chainActive.vChain) && c in Blocks() && t in Blocks()
      requires t in BadEntries(AllFields(), Marked()) && !InChain(chainActive.vChain, t) && OnPath(c, t, t) && OnPath(c, t, c)
      requires PathUsable(c, t)
      ensures Tree(t) && AllUsable(Snap(), Elems(Span(c, t))) && (t in Failed() || t !in Snap().data)
      ensures t in Failed() <==> t.failedValid || t.failedChild
      ensures chainActive.Tip() != null ==> chainActive.Tip() !in Elems(Span(c, t))
    {
      GrownNow();
      GrownIsClosed();
      AboveIsStacked(c, t, Blocks());
      SnapShows();
      FailedShows();
      hide Tree, OnPath, Span, Elems, CBlockStore.Snap, CBlockStore.Failed, CBlockStore.Grown, CBlockStore.AllFields, CBlockStore.Marked;
      assert ShowsFailed(Failed(), t) && Shows(Snap(), t);
      SpanUsable(c, t);
      TipNotAbove(c, t);
    }

    lemma AfterRemoval(candidates: set<CBlockIndex>, t: Tables, failed: set<CBlockIndex>, c: CBlockIndex, x: CBlockIndex)
      requires StoreOk(mapBlockIndex, candidates, t) && (x in failed || x !in t.data) && OnPath(c, x, c) && Tree(x)
      requires c in t.blocks && AllUsable(t, Elems(Span(c, x))) && failed <= Failed()
      requires chainActive.Tip() != null ==> chainActive.Tip() !in Elems(Span(c, x))
      requires Snap() == t.(unlinked := mapBlocksUnlinked)
      requires mapBlocksUnlinked == t.unlinked + if x in failed then [] else LinksOf(Span(c, x))
      requires setBlockIndexCandidates == candidates - Elems(Span(c, x)) - {x}
      ensures StoreOk(mapBlockIndex, setBlockIndexCandidates, Snap()) && (NothingLost(t, [], candidates, failed, chainActive.Tip()) ==> NoneLost())
    {
      RemovalStore(mapBlockIndex, candidates, t, failed, chainActive.Tip(), c, x, Failed());
    }

    // Without missing data, a bad entry failed.
    lemma BadWithDataFailed(t: CBlockIndex)
      requires t in Blocks() && t in BadEntries(AllFields(), Marked()) && t.nChainTx != 0
      ensures DataKept(AllFields()) ==> t.failedValid || t.failedChild
    {
      assert AllFields()[t].count != 0;
    }

    lemma GrownWithFewer(candidates: set<CBlockIndex>)
      requires GrownOk(AllFields(), candidates) && setBlockIndexCandidates <= candidates
      ensures Grown()
    {
      FewerCandidates(AllFields(), candidates, setBlockIndexCandidates);
    }

    method RemoveBad(c: CBlockIndex, t: CBlockIndex)
      requires Grown() && IsChain(chainActive.vChain) && c in setBlockIndexCandidates && c in Blocks() && t in Blocks()
      requires t in BadEntries(AllFields(), Marked()) && !InChain(chainActive.vChain, t) && OnPath(c, t, t) && OnPath(c, t, c)
      requires t.nChainTx != 0 && PathUsable(c, t)
      modifies this`mapBlocksUnlinked, this`setBlockIndexCandidates, this`pindexBestInvalid, this`Noted, Blocks()`failedChild
      ensures AllFields() == old(AllFields()) && Grown()
      ensures Shrinks(chainActive.vChain, old(BadEntries(AllFields(), Marked())), old(setBlockIndexCandidates), old(Marked()),
                      setBlockIndexCandidates, Marked())
      ensures Noted == (if old(t.failedValid || t.failedChild) then old(Noted) + {c} else old(Noted))
      ensures pindexBestInvalid == if old(t.failedValid || t.failedChild) then BetterHeader(old(pindexBestInvalid), c) else old(pindexBestInvalid)
      ensures DataKept(AllFields()) ==> mapBlocksUnlinked == old(mapBlocksUnlinked)
      ensures Snap() == old(Snap()).(unlinked := mapBlocksUnlinked)
      ensures (old(Valid()) ==> Valid()) && (old(Valid()) && old(NoneLost()) ==> NoneLost())
    {
      hide Tree, Usable, NoneUsable, BadEntries, InChain, IsChain, OnPath, DataKept, StoreOk, NothingLost, GrownOk;
      hide PathSet, Span, Elems, LinksOf, AllUsable;
      assert GrownOk(AllFields(), setBlockIndexCandidates);
      BadWithDataFailed(t);
      BeforeRemoval(c, t);
      ghost var before, failed := Snap(), Failed();
      ghost var wasValid := StoreOk(mapBlockIndex, setBlockIndexCandidates, before);
      ghost var wereMost := IsMostWork(pindexBestHeader, Blocks()) && IsMostWork(pindexBestInvalid, Noted);
      ghost var lostNone := NothingLost(before, [], setBlockIndexCandidates, failed, chainActive.Tip());
      assert (wasValid && wereMost) == Valid() && lostNone == NoneLost();
      SnapBlocks();
      hide CBlockStore.Snap, CBlockStore.NoneLost, CBlockStore.Failed, CBlockStore.AllFields, CBlockStore.Marked;
      hide CBlockStore.PathUsable, CBlockStore.Grown, IsMostWork;
      ghost var v, bad := chainActive.vChain, BadEntries(AllFields(), Marked());
      ghost var above := Elems(Span(c, t));
      RemoveNoted(c, t);
      GrownWithFewer(old(setBlockIndexCandidates));
      PathSubset(c, t, above, old(setBlockIndexCandidates) - setBlockIndexCandidates);
      PathSubset(c, t, above, Marked() - old(Marked()));
      PathUnusable(v, bad, c, t, old(setBlockIndexCandidates) - setBlockIndexCandidates);
      PathUnusable(v, bad, c, t, Marked() - old(Marked()));
      if wasValid {
        AfterRemoval(old(setBlockIndexCandidates), before, failed, c, t);
      }
    }

    /** One round: the best candidate when it can be used; otherwise its chain is removed. */
    method TryBest() returns (r: CBlockIndex?)
      requires Grown() && IsChain(chainActive.vChain) && setBlockIndexCandidates != {}
      modifies this`mapBlocksUnlinked, this`setBlockIndexCandidates, this`pindexBestInvalid, this`Noted, Blocks()`failedChild
      ensures AllFields() == old(AllFields()) && Grown()
      ensures r != null ==>
                && setBlockIndexCandidates == old(setBlockIndexCandidates) && Marked() == old(Marked())
                && r in setBlockIndexCandidates && Tree(r)
                && Usable(chainActive.vChain, old(BadEntries(AllFields(), Marked())), r)
                && IsGreatest(AllFields(), setBlockIndexCandidates, r)
      ensures r == null ==>
                Shrinks(chainActive.vChain, old(BadEntries(AllFields(), Marked())), old(setBlockIndexCandidates), old(Marked()),
                        setBlockIndexCandidates, Marked())
      ensures old(Noted) <= Noted
      ensures DataKept(AllFields()) ==> mapBlocksUnlinked == old(mapBlocksUnlinked)
      ensures Snap() == old(Snap()).(unlinked := mapBlocksUnlinked)
      ensures (old(Valid()) ==> Valid()) && (old(Valid()) && old(NoneLost()) ==> NoneLost())
    {
      hide Tree, Usable, Shrinks, IsGreatest, BadEntries, InChain, IsChain, OnPath, DataKept, StoreOk, NothingLost, GrownOk;
      CandidatesAreEntries();
      SnapLinks();
      hide CBlockStore.Snap, CBlockStore.Valid, CBlockStore.NoneLost, CBlockStore.Grown, CBlockStore.AllFields, CBlockStore.Marked;
      hide CBlockStore.PathUsable;
      var c := Greatest();
      var t := FirstBad(c);
      if t == null {
        return c;
      }
      RemoveBad(c, t);
      return null;
    }

    /** The best candidate whose blocks above the active chain are all there and did not fail. */
    method FindMostWorkChain() returns (r: CBlockIndex?)
      requires Grown() && IsChain(chainActive.vChain)
      modifies this`mapBlocksUnlinked, this`setBlockIndexCandidates, this`pindexBestInvalid, this`Noted, Blocks()`failedChild
      ensures AllFields() == old(AllFields())
      ensures var bad := old(BadEntries(AllFields(), Marked()));
              && (r == null ==> NoneUsable(chainActive.vChain, bad, old(setBlockIndexCandidates)))
              && (r != null ==> r in setBlockIndexCandidates && IsBest(chainActive.vChain, bad, old(setBlockIndexCandidates), AllFields(), r))
              && setBlockIndexCandidates <= old(setBlockIndexCandidates)
              && NoneUsable(chainActive.vChain, bad, old(setBlockIndexCandidates) - setBlockIndexCandidates)
              && old(Marked()) <= Marked() && NoneUsable(chainActive.vChain, bad, Marked() - old(Marked()))
      ensures old(Noted) <= Noted
      ensures Grown() && (DataKept(AllFields()) ==> mapBlocksUnlinked == old(mapBlocksUnlinked))
      ensures Snap() == old(Snap()).(unlinked := mapBlocksUnlinked)
      ensures (old(Valid()) ==> Valid()) && (old(Valid()) && old(NoneLost()) ==> NoneLost())
    {
      GrownNow();
      SnapLinks();
      hide Tree, Usable, NoneUsable, Shrinks, IsBest, IsGreatest, BadEntries, IsChain, DataKept, StoreOk, NothingLost, GrownOk;
      hide CBlockStore.Snap, CBlockStore.Valid, CBlockStore.NoneLost, CBlockStore.Grown, CBlockStore.AllFields, CBlockStore.Marked;
      ghost var v, cands, marked, fields := chainActive.vChain, setBlockIndexCandidates, Marked(), AllFields();
      ghost var bad := BadEntries(fields, marked);
      ghost var snap, valid, noneLost := Snap(), Valid(), NoneLost();
      NoneOfNothing(v, bad, cands, marked);
      while true
        invariant mapBlockIndex == old(mapBlockIndex) && AllFields() == fields && Grown() && cands <= fields.Keys
        invariant setBlockIndexCandidates <= cands && NoneUsable(v, bad, cands - setBlockIndexCandidates)
        invariant marked <= Marked() && NoneUsable(v, bad, Marked() - marked)
        invariant old(Noted) <= Noted
        invariant DataKept(fields) ==> mapBlocksUnlinked == old(mapBlocksUnlinked)
        invariant Snap() == snap.(unlinked := mapBlocksUnlinked)
        invariant (valid ==> Valid()) && (valid && noneLost ==> NoneLost())
        decreases setBlockIndexCandidates
      {
        if setBlockIndexCandidates == {} {
          assert cands - setBlockIndexCandidates == cands;
          return null;
        }
        ghost var before, markedBefore := setBlockIndexCandidates, Marked();
        r := TryBest();
        if r != null {
          SameUsable(v, fields, marked, Marked(), r);
          BestIs(v, bad, cands, setBlockIndexCandidates, fields, r);
          return;
        }
        SpoiledSets(v, fields, cands, before, setBlockIndexCandidates, marked, markedBefore, Marked());
      }
    }

    // ----- after the tip has moved -----

    /** The first entry in the order of the candidates. */
    method Least() returns (r: CBlockIndex)
      requires Grown() && setBlockIndexCandidates != {}
      ensures r in setBlockIndexCandidates && forall c :: c in setBlockIndexCandidates && c != r ==> WorkLess(r, c)
    {
      hide Tree;
      GrownNow();
      hide GrownOk;
      r :| r in setBlockIndexCandidates;
      var rest := setBlockIndexCandidates - {r};
      while rest != {}
        invariant rest <= setBlockIndexCandidates && r in setBlockIndexCandidates && r !in rest
        invariant forall c :: c in setBlockIndexCandidates && c != r && c !in rest ==> WorkLess(r, c)
        decreases rest
      {
        var c :| c in rest;
        rest := rest - {c};
        if WorkLess(c, r) {
          r := c;
        }
      }
      hide Worse;
    }

    lemma LeftAreNotWorse(candidates: set<CBlockIndex>, tip: CBlockIndex)
      requires candidates <= Blocks() && tip in Blocks() && setBlockIndexCandidates <= candidates
      requires forall c :: c in candidates && c !in setBlockIndexCandidates ==> WorkLess(c, tip)
      requires forall c :: c in setBlockIndexCandidates ==> !WorkLess(c, tip)
      ensures setBlockIndexCandidates == NotWorse(Snap(), candidates, tip)
    {
      SnapShows();
      hide CBlockStore.Snap, CBlockStore.Shows, Worse, Competes;
      forall c | c in candidates ensures Competes(Snap(), c, tip) <==> !WorkLess(c, tip) {
        ComparesTip(Snap(), c, tip);
      }
    }

    lemma FewerCandidatesOk(candidates: set<CBlockIndex>)
      requires StoreOk(mapBlockIndex, candidates, Snap()) && setBlockIndexCandidates <= candidates
      ensures StoreOk(mapBlockIndex, setBlockIndexCandidates, Snap())
    {
      hide Counted, DistinctAddresses, CBlockStore.Snap;
    }

    /**
     * Takes out the candidates that are worse than the tip, from the least one on.
     * The assert holds since some candidate is not worse.
     */
    method PruneBlockIndexCandidates()
      requires Valid() && chainActive.Tip() != null && chainActive.Tip() in Blocks()
      requires exists c :: c in setBlockIndexCandidates && !WorkLess(c, chainActive.Tip())
      modifies this`setBlockIndexCandidates
      ensures setBlockIndexCandidates == NotWorse(Snap(), old(setBlockIndexCandidates), chainActive.Tip())
      ensures Valid() && Snap() == old(Snap())
    {
      hide StoreOk, GrownOk, Tree, Worse, CBlockStore.Snap, CBlockStore.AllFields;
      ValidIsGrown();
      CandidatesAreEntries();
      ghost var candidates, tip := setBlockIndexCandidates, chainActive.Tip();
      ghost var best :| best in candidates && !WorkLess(best, tip);
      var it := Least();
      while WorkLess(it, chainActive.Tip())
        invariant Grown() && setBlockIndexCandidates <= candidates && best in setBlockIndexCandidates && it in setBlockIndexCandidates
        invariant forall c :: c in candidates && c !in setBlockIndexCandidates ==> WorkLess(c, tip)
        invariant forall c :: c in setBlockIndexCandidates && c != it ==> WorkLess(it, c)
        decreases setBlockIndexCandidates
      {
        assert it != best;
        setBlockIndexCandidates := setBlockIndexCandidates - {it};
        assert best in setBlockIndexCandidates;
        GrownWithFewer(candidates);
        it := Least();
      }
      assert setBlockIndexCandidates != {};
      forall c | c in setBlockIndexCandidates ensures !WorkLess(c, tip) {
        if WorkLess(c, tip) && c != it {
          LessTwice(it, c, tip);
        }
      }
      LeftAreNotWorse(candidates, tip);
      FewerCandidatesOk(candidates);
    }
  }
}
