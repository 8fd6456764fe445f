// Stores that never deleted a block: what links one block links in order, and
// which entries become candidates.
module BlockArrival {
  import opened Basics
  import opened BlockIndex
  import opened BlockLinking
  import opened BlockPruning

  /** Linked entries stay as they are. */
  ghost predicate Continues(t: Tables, t': Tables)
  {
    && t'.blocks == t.blocks && t'.chainTx.Keys == t'.seqs.Keys == t.chainTx.Keys == t.seqs.Keys == t.blocks
    && forall c :: c in t.blocks && IsLinked(t, c) ==> IsLinked(t', c) && t'.chainTx[c] == t.chainTx[c] && t'.seqs[c] == t.seqs[c]
  }

  /** The newly linked entries that can compete with the tip. */
  ghost function Competitors(t: Tables, t': Tables, tip: CBlockIndex?): set<CBlockIndex>
  {
    set c | c in t'.blocks && IsLinked(t', c) && !IsLinked(t, c) && Competes(t', c, tip)
  }

  /** `t'` is `t` with `p` linked. */
  ghost predicate LinksOne(t: Tables, t': Tables, p: CBlockIndex)
  {
    && p in t.blocks && !IsLinked(t, p) && t'.blocks == t.blocks
    && t.chainTx.Keys == t.seqs.Keys == t.blocks
    && IsLinked(t', p) && t'.chainTx == t.chainTx[p := t'.chainTx[p]]
    && t'.seqs == t.seqs[p := t.next]
  }

  lemma LinkedOnes(t: Tables, t': Tables, p: CBlockIndex)
    requires LinksOne(t, t', p)
    ensures forall c: CBlockIndex :: IsLinked(t', c) <==> IsLinked(t, c) || c == p
    ensures forall c: CBlockIndex :: IsLinked(t, c) ==> c in t.blocks
  {
  }

  lemma OneMoreContinues(t0: Tables, t: Tables, t': Tables, p: CBlockIndex)
    requires LinksOne(t, t', p) && Continues(t0, t)
    ensures Continues(t0, t') && !IsLinked(t0, p)
  {
  }

  lemma OneMoreCompetes(t0: Tables, t: Tables, t': Tables, p: CBlockIndex, tip: CBlockIndex?)
    requires LinksOne(t, t', p) && (tip != null ==> IsLinked(t, tip)) && !IsLinked(t0, p)
    requires forall c: CBlockIndex :: IsLinked(t', c) <==> IsLinked(t, c) || c == p
    ensures Competitors(t0, t', tip) == Competitors(t0, t, tip) + if Competes(t', p, tip) then {p} else {}
  {
    hide Worse;
    forall c | c in t.blocks && c != p ensures Competes(t', c, tip) <==> Competes(t, c, tip) {
    }
  }

  lemma LinkOneMore(t0: Tables, t: Tables, t': Tables, p: CBlockIndex, tip: CBlockIndex?)
    requires LinksOne(t, t', p) && Continues(t0, t) && (tip != null ==> IsLinked(t, tip))
    ensures Continues(t0, t')
    ensures tip != null ==> IsLinked(t', tip) && tip != p && tip in t.blocks
    ensures Competitors(t0, t', tip) == Competitors(t0, t, tip) + if Competes(t', p, tip) then {p} else {}
  {
    LinkedOnes(t, t', p);
    OneMoreContinues(t0, t, t', p);
    OneMoreCompetes(t0, t, t', p, tip);
    hide IsLinked, Competes, Competitors, Continues;
  }

  lemma BlocksHaveEntries(t: Tables)
    requires Linking(t, [])
    ensures t.chainTx.Keys == t.seqs.Keys == t.blocks
  {
  }

  lemma StartLinking(t0: Tables, b: CBlockIndex, n: nat, tip: CBlockIndex?)
    requires Linking(t0, []) && Arrives(t0, b, n)
    ensures b in t0.blocks && b !in t0.data && n >= 1 && Shape(t0)
    ensures var t := WithData(t0, b, n);
            && t.chainTx == t0.chainTx && t.seqs == t0.seqs
            && Continues(t0, t) && Competitors(t0, t, tip) == {} && (tip != null && IsLinked(t0, tip) ==> IsLinked(t, tip))
            && forall u :: Continues(t0, t.(unlinked := u)) && Competitors(t0, t.(unlinked := u), tip) == {}
  {
    UnreceivedIsUnlinked(t0, b);
    hide Linking;
    BlocksHaveEntries(t0);
  }

  // One more entry is linked.
  lemma FrontLinksOne(t: Tables, queue: seq<CBlockIndex>)
    requires Linking(t, queue) && Counted(t, queue) && queue != []
    ensures Shape(t) && queue[0] in t.blocks
    ensures LinksOne(t, LinkFront(t, queue[0]), queue[0])
    ensures Linking(LinkFront(t, queue[0]), queue[1..] + Children(t.unlinked, queue[0]))
  {
    LinkFrontKeeps(t, queue);
    var p := queue[0];
    assert p in queue;
    assert p in t.data && t.tx[p] >= 1;
    hide Tree, Others, Children, Linking, Counted;
  }

  // What is queued is linked in turn: linked entries stay as they are, and
  // exactly the newly linked ones that compete with the tip become candidates.
  lemma {:induction false} DrainInOrder(t0: Tables, t: Tables, queue: seq<CBlockIndex>, candidates: set<CBlockIndex>, tip: CBlockIndex?)
    requires Linking(t, queue) && Counted(t, queue) && Continues(t0, t) && (tip != null ==> IsLinked(t, tip))
    ensures var (t', candidates') := Drain(t, queue, candidates + Competitors(t0, t, tip), tip);
            && Linking(t', []) && Continues(t0, t') && candidates' == candidates + Competitors(t0, t', tip)
    decreases |t.unlinked| + |queue|
  {
    hide Counted, Linking, Continues, Competitors, IsLinked, LinkFront, Children, Relinked, NextQueue, LinksOne, Competes;
    if queue != [] {
      var p, kids := queue[0], Children(t.unlinked, queue[0]);
      DrainNext(t, queue, candidates + Competitors(t0, t, tip), tip);
      FrontLinksOne(t, queue);
      var t1 := LinkFront(t, p);
      LinkOneMore(t0, t, t1, p, tip);
      var more := if Competes(t1, p, tip) then {p} else {};
      assert candidates + Competitors(t0, t, tip) + more == candidates + Competitors(t0, t1, tip);
      DrainInOrder(t0, t1, queue[1..] + kids, candidates, tip);
    }
  }

  // Main result on arrival: a store without deleted blocks stays exactly linked
  // when the parent is linked or did not fail, and the candidates that come are
  // the newly linked entries that compete with the tip.
  lemma ReceivedInOrder(t: Tables, candidates: set<CBlockIndex>, b: CBlockIndex, n: nat, parentFailed: bool, tip: CBlockIndex?)
    requires Arrives(t, b, n) && Linking(t, []) && (tip != null ==> IsLinked(t, tip))
    ensures var (t', candidates') := Received(t, candidates, b, n, parentFailed, tip);
            && (Linking(t', []) <==> ParentLinked(t, b) || !parentFailed)
            && Continues(t, t') && candidates' == candidates + Competitors(t, t', tip)
  {
    hide Linking, Counted, Competitors, Continues, Arrives;
    StartLinking(t, b, n, tip);
    var t1 := WithData(t, b, n);
    if ParentLinked(t, b) {
      ArrivedQueued(t, b, n);
      QueuedWhenParentLinked(t, b, n);
      assert candidates + Competitors(t, t1, tip) == candidates;
      DrainInOrder(t, t1, [b], candidates, tip);
    } else if parentFailed {
      ForgottenOtherwise(t, b, n);
    } else {
      WaitingOtherwise(t, b, n);
    }
  }

  // ----- level by level -----

  /** Ids from `first` on grow with the height. */
  ghost predicate GrowByLevel(t: Tables, first: nat)
  {
    forall a, b :: a in t.seqs && b in t.seqs && first <= t.seqs[a] && first <= t.seqs[b] && a.nHeight < b.nHeight ==>
      t.seqs[a] < t.seqs[b]
  }

  /** They belong to entries up to height `top`, and are given in turn. */
  ghost predicate ByLevel(t: Tables, first: nat, top: nat)
  {
    && first <= t.next
    && (forall a :: a in t.seqs && first <= t.seqs[a] ==> t.seqs[a] < t.next && a.nHeight <= top)
    && GrowByLevel(t, first)
  }

  /** The queue holds the rest of one level, and then entries of the next. */
  predicate QueueByLevel(queue: seq<CBlockIndex>, top: nat)
  {
    && (forall i :: 0 <= i < |queue| ==> top <= queue[i].nHeight <= top + 1)
    && forall i, j :: 0 <= i < j < |queue| ==> queue[i].nHeight <= queue[j].nHeight
  }

  lemma KidsAreAbove(t: Tables, queue: seq<CBlockIndex>, p: CBlockIndex)
    requires Counted(t, queue)
    ensures forall c :: c in Children(t.unlinked, p) ==> c.nHeight == p.nHeight + 1
  {
    forall c | c in Children(t.unlinked, p) ensures c.nHeight == p.nHeight + 1 {
      ChildAt(t.unlinked, p, c);
      assert LinkOk(t, Link(p, c));
      assert c in t.blocks && Tree(c);
    }
  }

  lemma QueueMovesOn(queue: seq<CBlockIndex>, kids: seq<CBlockIndex>, top: nat)
    requires QueueByLevel(queue, top) && queue != []
    requires forall c :: c in kids ==> c.nHeight == queue[0].nHeight + 1
    ensures QueueByLevel(queue[1..] + kids, queue[0].nHeight)
  {
    var rest := queue[1..] + kids;
    forall i | 0 <= i < |rest| ensures queue[0].nHeight <= rest[i].nHeight <= queue[0].nHeight + 1 {
      if i >= |queue| - 1 {
        assert rest[i] in kids;
      }
    }
    forall i, j | 0 <= i < j < |rest| ensures rest[i].nHeight <= rest[j].nHeight {
      if j >= |queue| - 1 {
        assert rest[j] in kids;
      }
    }
  }

  lemma FrontByLevel(t: Tables, p: CBlockIndex, first: nat, top: nat)
    requires Shape(t) && p in t.blocks && ByLevel(t, first, top) && top <= p.nHeight
    ensures ByLevel(LinkFront(t, p), first, p.nHeight)
  {
    hide Others;
  }

  lemma {:induction false} DrainByLevel(t: Tables, queue: seq<CBlockIndex>, candidates: set<CBlockIndex>, tip: CBlockIndex?, first: nat, top: nat)
    requires Counted(t, queue) && ByLevel(t, first, top) && QueueByLevel(queue, top)
    ensures GrowByLevel(Drain(t, queue, candidates, tip).0, first)
    decreases |t.unlinked| + |queue|
  {
    if queue != [] {
      var p, kids := queue[0], Children(t.unlinked, queue[0]);
      DrainNext(t, queue, candidates, tip);
      KidsAreAbove(t, queue, p);
      QueueMovesOn(queue, kids, top);
      FrontByLevel(t, p, first, top);
      var t1 := LinkFront(t, p);
      hide *;
      DrainByLevel(t1, queue[1..] + kids, candidates + (if Competes(t1, p, tip) then {p} else {}), tip, first, p.nHeight);
    }
  }

  lemma NoneNew(t: Tables, b: CBlockIndex, n: nat)
    requires Arrives(t, b, n)
    ensures forall c :: c in t.seqs ==> t.seqs[c] < t.next
    ensures ByLevel(WithData(t, b, n), t.next, b.nHeight) && GrowByLevel(t, t.next)
  {
    forall c | c in t.seqs ensures t.seqs[c] < t.next {
      if IsLinked(t, c) {
        assert CountOk(t, [], c);
      }
    }
  }

  lemma ReceivedDrains(t: Tables, candidates: set<CBlockIndex>, b: CBlockIndex, n: nat, parentFailed: bool, tip: CBlockIndex?)
    requires Arrives(t, b, n) && Counted(WithData(t, b, n), [b]) && ParentLinked(t, b)
    ensures Received(t, candidates, b, n, parentFailed, tip).0 == Drain(WithData(t, b, n), [b], candidates, tip).0
  {
    hide Counted, Drain, WithData;
  }

  lemma WaitingKeepsIds(t: Tables, candidates: set<CBlockIndex>, b: CBlockIndex, n: nat, parentFailed: bool, tip: CBlockIndex?)
    requires Arrives(t, b, n) && !ParentLinked(t, b)
    ensures Received(t, candidates, b, n, parentFailed, tip).0.seqs == t.seqs
  {
    hide Counted, Drain;
  }

  lemma OneByLevel(b: CBlockIndex)
    ensures QueueByLevel([b], b.nHeight)
  {
  }

  lemma ReceivedByLevel(t: Tables, candidates: set<CBlockIndex>, b: CBlockIndex, n: nat, parentFailed: bool, tip: CBlockIndex?)
    requires Arrives(t, b, n)
    ensures GrowByLevel(Received(t, candidates, b, n, parentFailed, tip).0, t.next)
  {
    NoneNew(t, b, n);
    if ParentLinked(t, b) {
      hide Counted, ByLevel, GrowByLevel, Drain, QueueByLevel, Received, WithData;
      ArrivedQueued(t, b, n);
      OneByLevel(b);
      DrainByLevel(WithData(t, b, n), [b], candidates, tip, t.next, b.nHeight);
      ReceivedDrains(t, candidates, b, n, parentFailed, tip);
    } else {
      hide Received, Arrives;
      WaitingKeepsIds(t, candidates, b, n, parentFailed, tip);
    }
  }

  // Main result on order: whatever one block links, with or without deleted data,
  // gets its ids level by level, so a shorter branch never waits for a longer one.
  lemma LinkedByLevel(t: Tables, candidates: set<CBlockIndex>, b: CBlockIndex, n: nat, parentFailed: bool, tip: CBlockIndex?)
    requires Arrives(t, b, n)
    ensures forall c :: c in t.seqs ==> t.seqs[c] < t.next
    ensures var t' := Received(t, candidates, b, n, parentFailed, tip).0;
            forall a, c :: a in t'.seqs && c in t'.seqs && t.next <= t'.seqs[a] && t.next <= t'.seqs[c] && a.nHeight < c.nHeight ==>
              t'.seqs[a] < t'.seqs[c]
  {
    NoneNew(t, b, n);
    hide Received, Arrives;
    ReceivedByLevel(t, candidates, b, n, parentFailed, tip);
  }
}
