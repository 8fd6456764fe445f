// Stores that delete old blocks: what stays true of counts, waiting links and
// candidates while data goes away and comes back.
module BlockPruning {
  import opened Basics
  import opened BlockIndex
  import opened BlockLinking

  // ----- the order of candidates -----

  /** Less work, or the same work received later; addresses break ties. */
  predicate Worse(a: CBlockIndex, aSeq: nat, b: CBlockIndex, bSeq: nat)
  {
    if a.nChainWork != b.nChainWork then a.nChainWork < b.nChainWork
    else if aSeq != bSeq then aSeq > bSeq
    else a.address > b.address
  }

  /** As good as the tip, or better. */
  ghost predicate Competes(t: Tables, c: CBlockIndex, tip: CBlockIndex?)
  {
    tip == null || (c in t.seqs && tip in t.seqs && !Worse(c, t.seqs[c], tip, t.seqs[tip]))
  }

  // What competes with a tip: more work, or as much and received earlier; addresses
  // decide only between equals.
  lemma CompetesMeans(t: Tables, c: CBlockIndex, tip: CBlockIndex)
    requires c in t.seqs && tip in t.seqs
    ensures Competes(t, c, tip)
            <==> || c.nChainWork > tip.nChainWork
                 || (c.nChainWork == tip.nChainWork && t.seqs[c] < t.seqs[tip])
                 || (c.nChainWork == tip.nChainWork && t.seqs[c] == t.seqs[tip] && c.address <= tip.address)
  {
  }

  // ----- what every operation keeps -----

  /** A linked entry, whether its data is still there or not. */
  ghost predicate CountOk(t: Tables, queue: seq<CBlockIndex>, b: CBlockIndex)
    requires Shape(t) && b in t.blocks
  {
    && t.tx[b] >= 1 && t.chainTx[b] == TotalTx(t.tx, b) && 1 <= t.seqs[b] < t.next
    && (ParentLinked(t, b) || b.pprev in queue)
  }

  /** The child of a link is received; it is linked already when its parent is. */
  predicate LinkOk(t: Tables, l: Link)
  {
    l.child in t.data && l.parent == l.child.pprev && (IsLinked(t, l.parent) ==> IsLinked(t, l.child))
  }

  ghost predicate QueuedOk(t: Tables, queue: seq<CBlockIndex>)
  {
    forall b :: b in queue ==> b in t.data && ParentLinked(t, b)
  }

  ghost predicate Counted(t: Tables, queue: seq<CBlockIndex>)
  {
    && Shape(t) && t.next >= 1
    && (forall b :: b in t.blocks && IsLinked(t, b) ==> CountOk(t, queue, b))
    && (forall b :: b in t.blocks && !IsLinked(t, b) && b !in queue ==> t.seqs[b] == 0)
    && (forall l :: l in t.unlinked ==> LinkOk(t, l))
    && QueuedOk(t, queue)
  }

  /** The link that an entry waits with. */
  predicate HasLink(t: Tables, b: CBlockIndex)
  {
    b.pprev != null && Link(b.pprev, b) in t.unlinked
  }

  /** It failed before it was received, or it is above such an entry: failed blocks are not taken, so it stays unlinked. */
  ghost predicate Stuck(tx: map<CBlockIndex, nat>, failed: set<CBlockIndex>, b: CBlockIndex)
    requires Tree(b)
    decreases b.nHeight
  {
    (b in failed && b in tx && tx[b] == 0) || (b.pprev != null && Stuck(tx, failed, b.pprev))
  }

  ghost predicate InVain(t: Tables, failed: set<CBlockIndex>, b: CBlockIndex)
  {
    Tree(b) && Stuck(t.tx, failed, b)
  }

  /** Whatever was received and is not linked, apart from `lost`, waits for its parent or in vain. */
  ghost predicate Complete(t: Tables, queue: seq<CBlockIndex>, failed: set<CBlockIndex>, lost: set<CBlockIndex>)
  {
    forall b :: b in t.tx && t.tx[b] >= 1 && !IsLinked(t, b) && b !in queue && b !in lost ==> HasLink(t, b) || InVain(t, failed, b)
  }

  /** Links lead down to missing data. */
  ghost predicate Grounded(t: Tables, queue: seq<CBlockIndex>, failed: set<CBlockIndex>)
  {
    forall l :: l in t.unlinked ==> l.parent !in t.data || l.parent in queue || HasLink(t, l.parent) || InVain(t, failed, l.parent)
  }

  /** No entry down to the first one is in the set. */
  ghost predicate NoneIn(s: set<CBlockIndex>, b: CBlockIndex)
    requires Tree(b)
    decreases b.nHeight
  {
    b !in s && (b.pprev != null ==> NoneIn(s, b.pprev))
  }

  /** What could be used to beat the tip. */
  ghost predicate Eligible(t: Tables, failed: set<CBlockIndex>, tip: CBlockIndex?, b: CBlockIndex)
  {
    b in t.data && Tree(b) && IsLinked(t, b) && Competes(t, b, tip) && NoneIn(failed, b)
  }

  /** It is a candidate, or comes back when its parent does. */
  ghost predicate Offered(t: Tables, queue: seq<CBlockIndex>, candidates: set<CBlockIndex>, failed: set<CBlockIndex>, tip: CBlockIndex?)
  {
    forall b :: b in t.data && Eligible(t, failed, tip, b) ==> b in candidates || b in queue || HasLink(t, b)
  }

  /** The tip is there and waits for nothing. */
  ghost predicate TipOk(t: Tables, queue: seq<CBlockIndex>, tip: CBlockIndex?)
  {
    tip != null ==> tip in t.data && IsLinked(t, tip) && tip !in queue && forall l :: l in t.unlinked ==> l.child != tip
  }

  /** Nothing that was received is lost from sight. */
  ghost predicate NothingLost(t: Tables, queue: seq<CBlockIndex>, candidates: set<CBlockIndex>, failed: set<CBlockIndex>, tip: CBlockIndex?)
  {
    && Complete(t, queue, failed, {}) && Grounded(t, queue, failed) && Offered(t, queue, candidates, failed, tip) && TipOk(t, queue, tip)
  }

  // ----- one round of the queue -----

  ghost predicate NextQueue(queue: seq<CBlockIndex>, kids: seq<CBlockIndex>, p: CBlockIndex, rest: seq<CBlockIndex>)
  {
    && (forall c :: c in rest ==> c in queue || c in kids)
    && (forall c :: c in queue && c != p ==> c in rest)
    && (forall c :: c in kids ==> c in rest)
  }

  lemma NextQueueIs(queue: seq<CBlockIndex>, kids: seq<CBlockIndex>)
    requires queue != []
    ensures NextQueue(queue, kids, queue[0], queue[1..] + kids)
  {
    forall c | c in queue && c != queue[0] ensures c in queue[1..] {
      var i :| 0 <= i < |queue| && queue[i] == c;
      assert queue[1..][i - 1] == c;
    }
    forall c | c in queue[1..] ensures c in queue {
      var i :| 0 <= i < |queue[1..]| && queue[1..][i] == c;
      assert queue[i + 1] == c;
    }
  }

  /** `t'` is `t` with `p` linked anew and its links taken. */
  ghost predicate Relinked(t: Tables, t': Tables, p: CBlockIndex, kids: seq<CBlockIndex>)
  {
    && t'.blocks == t.blocks && t'.data == t.data && t'.tx == t.tx && t'.next == t.next + 1
    && t'.chainTx.Keys == t.chainTx.Keys && t'.seqs.Keys == t.seqs.Keys
    && p in t.seqs && p in t.chainTx && t'.seqs[p] == t.next && t'.chainTx[p] >= 1
    && (forall c :: c in t.chainTx && c != p ==> t'.chainTx[c] == t.chainTx[c])
    && (forall c :: c in t.seqs && c != p ==> t'.seqs[c] == t.seqs[c])
    && (forall l :: l in t'.unlinked ==> l in t.unlinked && l.parent != p)
    && (forall l :: l in t.unlinked ==> if l.parent == p then l.child in kids else l in t'.unlinked)
    && (forall c :: c in kids ==> Link(p, c) in t.unlinked)
  }

  lemma LinksTaken(u: seq<Link>, p: CBlockIndex)
    ensures forall l :: l in Others(u, p) ==> l in u && l.parent != p
    ensures forall l :: l in u ==> if l.parent == p then l.child in Children(u, p) else l in Others(u, p)
    ensures forall c :: c in Children(u, p) ==> Link(p, c) in u
  {
    OthersAre(u, p);
    forall l | l in u ensures if l.parent == p then l.child in Children(u, p) else l in Others(u, p) {
      assert l == Link(l.parent, l.child);
    }
  }

  lemma RelinkedParts(t: Tables, t': Tables, p: CBlockIndex, kids: seq<CBlockIndex>)
    requires t'.blocks == t.blocks && t'.data == t.data && t'.tx == t.tx && t'.next == t.next + 1
    requires p in t.chainTx && p in t'.chainTx && t'.chainTx[p] >= 1 && t'.chainTx == t.chainTx[p := t'.chainTx[p]]
    requires p in t.seqs && t'.seqs == t.seqs[p := t.next]
    requires forall l :: l in t'.unlinked ==> l in t.unlinked && l.parent != p
    requires forall l :: l in t.unlinked ==> if l.parent == p then l.child in kids else l in t'.unlinked
    requires forall c :: c in kids ==> Link(p, c) in t.unlinked
    ensures Relinked(t, t', p, kids)
  {
  }

  lemma FrontRelinked(t: Tables, p: CBlockIndex)
    requires Shape(t) && p in t.data
    ensures Relinked(t, LinkFront(t, p), p, Children(t.unlinked, p))
  {
    assert t.tx[p] >= 1;
    var t', kids := LinkFront(t, p), Children(t.unlinked, p);
    assert t'.chainTx[p] >= 1;
    LinksTaken(t.unlinked, p);
    hide *;
    RelinkedParts(t, t', p, kids);
  }

  // Linking counts all transactions from the first block on.
  lemma FrontCount(t: Tables, queue: seq<CBlockIndex>, p: CBlockIndex)
    requires Counted(t, queue) && p in t.data && ParentLinked(t, p)
    ensures LinkFront(t, p).chainTx[p] == TotalTx(t.tx, p)
  {
    if p.pprev != null {
      assert CountOk(t, queue, p.pprev);
    }
  }

  lemma RelinkedAt(t: Tables, t': Tables, p: CBlockIndex, kids: seq<CBlockIndex>, c: CBlockIndex)
    requires Relinked(t, t', p, kids) && Shape(t)
    ensures IsLinked(t', c) <==> IsLinked(t, c) || c == p
    ensures HasLink(t', c) == (HasLink(t, c) && c.pprev != p)
    ensures HasLink(t, c) && c.pprev == p ==> c in kids
  {
    hide Tree;
    if HasLink(t, c) {
      assert c.pprev == p ==> Link(p, c) in t.unlinked;
    }
  }

  lemma CountedParts(t: Tables, queue: seq<CBlockIndex>)
    requires Shape(t) && t.next >= 1
    requires forall b :: b in t.blocks && IsLinked(t, b) ==> CountOk(t, queue, b)
    requires forall b :: b in t.blocks && !IsLinked(t, b) && b !in queue ==> t.seqs[b] == 0
    requires forall l :: l in t.unlinked ==> LinkOk(t, l)
    requires QueuedOk(t, queue)
    ensures Counted(t, queue)
  {
    hide Shape, CountOk, LinkOk, QueuedOk;
  }

  lemma RelinkedShape(t: Tables, t': Tables, p: CBlockIndex, kids: seq<CBlockIndex>)
    requires Shape(t) && Relinked(t, t', p, kids)
    ensures Shape(t')
  {
    hide Tree;
  }

  lemma RelinkedEntries(t: Tables, t': Tables, p: CBlockIndex, queue: seq<CBlockIndex>, kids: seq<CBlockIndex>, rest: seq<CBlockIndex>)
    requires Counted(t, queue) && p in queue && Relinked(t, t', p, kids) && t'.chainTx[p] == TotalTx(t.tx, p)
    requires NextQueue(queue, kids, p, rest) && Shape(t')
    ensures t'.next >= 1
    ensures forall b :: b in t.blocks && IsLinked(t', b) ==> CountOk(t', rest, b)
    ensures forall b :: b in t.blocks && !IsLinked(t', b) && b !in rest ==> t'.seqs[b] == 0
  {
    hide Tree, LinkOk, TotalTx, HasLink;
    forall b | b in t.blocks && IsLinked(t', b) ensures CountOk(t', rest, b) {
      RelinkedAt(t, t', p, kids, b);
      if b != p {
        assert CountOk(t, queue, b);
        if b.pprev != null {
          RelinkedAt(t, t', p, kids, b.pprev);
        }
      } else if b.pprev != null {
        RelinkedAt(t, t', p, kids, b.pprev);
      }
    }
    forall b | b in t.blocks && !IsLinked(t', b) && b !in rest ensures t'.seqs[b] == 0 {
      RelinkedAt(t, t', p, kids, b);
    }
  }

  lemma RelinkedLinks(t: Tables, t': Tables, p: CBlockIndex, queue: seq<CBlockIndex>, kids: seq<CBlockIndex>, rest: seq<CBlockIndex>)
    requires Counted(t, queue) && p in queue && Relinked(t, t', p, kids) && NextQueue(queue, kids, p, rest)
    ensures forall l :: l in t'.unlinked ==> LinkOk(t', l)
    ensures QueuedOk(t', rest)
  {
    hide Tree, CountOk, HasLink;
    forall l | l in t'.unlinked ensures LinkOk(t', l) {
      assert LinkOk(t, l);
      RelinkedAt(t, t', p, kids, l.child);
      RelinkedAt(t, t', p, kids, l.parent);
    }
    forall c | c in rest ensures c in t'.data && ParentLinked(t', c) {
      if c in kids {
        assert LinkOk(t, Link(p, c));
        RelinkedAt(t, t', p, kids, p);
      } else if c.pprev != null {
        RelinkedAt(t, t', p, kids, c.pprev);
      }
    }
  }

  lemma RelinkedCounted(t: Tables, t': Tables, p: CBlockIndex, queue: seq<CBlockIndex>, kids: seq<CBlockIndex>, rest: seq<CBlockIndex>)
    requires Counted(t, queue) && p in queue && Relinked(t, t', p, kids) && t'.chainTx[p] == TotalTx(t.tx, p)
    requires NextQueue(queue, kids, p, rest)
    ensures Counted(t', rest)
  {
    RelinkedShape(t, t', p, kids);
    RelinkedEntries(t, t', p, queue, kids, rest);
    RelinkedLinks(t, t', p, queue, kids, rest);
    hide *;
    CountedParts(t', rest);
  }

  lemma LinkFrontCounted(t: Tables, queue: seq<CBlockIndex>)
    requires Counted(t, queue) && queue != []
    ensures queue[0] in t.data && queue[0] in t.blocks
    ensures Counted(LinkFront(t, queue[0]), queue[1..] + Children(t.unlinked, queue[0]))
  {
    var p := queue[0];
    assert p in queue;
    var t', kids := LinkFront(t, p), Children(t.unlinked, p);
    FrontRelinked(t, p);
    FrontCount(t, queue, p);
    NextQueueIs(queue, kids);
    RelinkedCounted(t, t', p, queue, kids, queue[1..] + kids);
  }

  lemma RelinkedWaits(t: Tables, t': Tables, p: CBlockIndex, queue: seq<CBlockIndex>, kids: seq<CBlockIndex>, rest: seq<CBlockIndex>,
                      failed: set<CBlockIndex>, lost: set<CBlockIndex>)
    requires Shape(t) && Relinked(t, t', p, kids) && NextQueue(queue, kids, p, rest) && Complete(t, queue, failed, lost)
    ensures Complete(t', rest, failed, lost)
  {
    hide Tree, Stuck, HasLink;
    forall b | b in t'.tx && t'.tx[b] >= 1 && !IsLinked(t', b) && b !in rest && b !in lost ensures HasLink(t', b) || InVain(t', failed, b) {
      RelinkedAt(t, t', p, kids, b);
    }
  }

  lemma RelinkedGrounded(t: Tables, t': Tables, p: CBlockIndex, queue: seq<CBlockIndex>, kids: seq<CBlockIndex>, rest: seq<CBlockIndex>,
                         failed: set<CBlockIndex>)
    requires Shape(t) && Relinked(t, t', p, kids) && NextQueue(queue, kids, p, rest) && Grounded(t, queue, failed)
    ensures Grounded(t', rest, failed)
  {
    hide Tree, Stuck, HasLink;
    forall l | l in t'.unlinked
      ensures l.parent !in t'.data || l.parent in rest || HasLink(t', l.parent) || InVain(t', failed, l.parent)
    {
      RelinkedAt(t, t', p, kids, l.parent);
    }
  }

  lemma RelinkedOffers(t: Tables, t': Tables, p: CBlockIndex, queue: seq<CBlockIndex>, kids: seq<CBlockIndex>, rest: seq<CBlockIndex>,
                       candidates: set<CBlockIndex>, failed: set<CBlockIndex>, tip: CBlockIndex?)
    requires Shape(t) && p in queue && Relinked(t, t', p, kids) && NextQueue(queue, kids, p, rest)
    requires Offered(t, queue, candidates, failed, tip) && TipOk(t, queue, tip)
    ensures Offered(t', rest, candidates + (if Competes(t', p, tip) then {p} else {}), failed, tip)
    ensures TipOk(t', rest, tip)
  {
    hide Tree, HasLink, NoneIn, Worse;
    if tip != null {
      RelinkedAt(t, t', p, kids, tip);
      assert forall c :: c in kids ==> Link(p, c) in t.unlinked;
    }
    forall b | b in t'.data && Eligible(t', failed, tip, b)
      ensures b in candidates + (if Competes(t', p, tip) then {p} else {}) || b in rest || HasLink(t', b)
    {
      RelinkedAt(t, t', p, kids, b);
      if b != p {
        assert Eligible(t, failed, tip, b);
      }
    }
  }

  // What waits for the front is queued, so nothing is lost.
  lemma RelinkedLosesNothing(t: Tables, t': Tables, p: CBlockIndex, queue: seq<CBlockIndex>, kids: seq<CBlockIndex>, rest: seq<CBlockIndex>,
                             candidates: set<CBlockIndex>, failed: set<CBlockIndex>, tip: CBlockIndex?)
    requires Counted(t, queue) && p in queue && Relinked(t, t', p, kids) && NextQueue(queue, kids, p, rest)
    requires NothingLost(t, queue, candidates, failed, tip)
    ensures NothingLost(t', rest, candidates + (if Competes(t', p, tip) then {p} else {}), failed, tip)
  {
    hide Tree, Stuck, CountOk, LinkOk, TotalTx, Worse, NoneIn, QueuedOk;
    RelinkedWaits(t, t', p, queue, kids, rest, failed, {});
    RelinkedGrounded(t, t', p, queue, kids, rest, failed);
    RelinkedOffers(t, t', p, queue, kids, rest, candidates, failed, tip);
  }

  // ----- the whole queue -----

  lemma {:induction false} LinksSplit(u: seq<Link>, b: CBlockIndex)
    ensures |Others(u, b)| + |Children(u, b)| == |u|
  {
    if u != [] {
      LinksSplit(u[..|u| - 1], b);
    }
  }

  /** The queue until it is empty: tables and candidates afterwards. */
  ghost function Drain(t: Tables, queue: seq<CBlockIndex>, candidates: set<CBlockIndex>, tip: CBlockIndex?): (Tables, set<CBlockIndex>)
    requires Counted(t, queue)
    decreases |t.unlinked| + |queue|
  {
    if queue == [] then (t, candidates)
    else
      LinkFrontCounted(t, queue);
      LinksSplit(t.unlinked, queue[0]);
      var t' := LinkFront(t, queue[0]);
      Drain(t', queue[1..] + Children(t.unlinked, queue[0]),
            candidates + (if Competes(t', queue[0], tip) then {queue[0]} else {}), tip)
  }

  lemma DrainNext(t: Tables, queue: seq<CBlockIndex>, candidates: set<CBlockIndex>, tip: CBlockIndex?)
    requires Counted(t, queue) && queue != []
    ensures queue[0] in t.data && queue[0] in t.blocks
    ensures var p := queue[0];
            var t' := LinkFront(t, p);
            && Counted(t', queue[1..] + Children(t.unlinked, p))
            && Relinked(t, t', p, Children(t.unlinked, p))
            && NextQueue(queue, Children(t.unlinked, p), p, queue[1..] + Children(t.unlinked, p))
            && |t'.unlinked| + |Children(t.unlinked, p)| == |t.unlinked|
            && Drain(t, queue, candidates, tip)
               == Drain(t', queue[1..] + Children(t.unlinked, p), candidates + (if Competes(t', p, tip) then {p} else {}), tip)
  {
    LinkFrontCounted(t, queue);
    LinksSplit(t.unlinked, queue[0]);
    FrontRelinked(t, queue[0]);
    NextQueueIs(queue, Children(t.unlinked, queue[0]));
    hide Counted, Children, LinkFront, Competes, Relinked, NextQueue;
  }

  /** What the queue leaves alone. */
  ghost predicate Grows(t: Tables, candidates: set<CBlockIndex>, t': Tables, candidates': set<CBlockIndex>)
  {
    && t'.blocks == t.blocks && t'.data == t.data && t'.tx == t.tx && t'.next >= t.next && candidates <= candidates'
    && (forall c :: c in t.chainTx && IsLinked(t, c) ==> IsLinked(t', c))
    && (forall c :: c in candidates' && c !in candidates ==> IsLinked(t', c))
    && (forall l :: l in t'.unlinked ==> l in t.unlinked)
  }

  lemma GrowsMore(t: Tables, t1: Tables, p: CBlockIndex, kids: seq<CBlockIndex>, candidates: set<CBlockIndex>, more: set<CBlockIndex>,
                  t': Tables, candidates': set<CBlockIndex>)
    requires Relinked(t, t1, p, kids) && more <= {p} && Grows(t1, candidates + more, t', candidates')
    ensures Grows(t, candidates, t', candidates')
  {
    assert IsLinked(t1, p);
  }

  lemma FrontIsQueued(queue: seq<CBlockIndex>)
    requires queue != []
    ensures queue[0] in queue
  {
  }

  lemma {:induction false} DrainKeeps(t: Tables, queue: seq<CBlockIndex>, candidates: set<CBlockIndex>, failed: set<CBlockIndex>, tip: CBlockIndex?)
    requires Counted(t, queue)
    ensures var (t', candidates') := Drain(t, queue, candidates, tip);
            && Counted(t', []) && Grows(t, candidates, t', candidates')
            && (NothingLost(t, queue, candidates, failed, tip) ==> NothingLost(t', [], candidates', failed, tip))
    decreases |t.unlinked| + |queue|
  {
    if queue != [] {
      DrainNext(t, queue, candidates, tip);
      var p := queue[0];
      var t1, kids := LinkFront(t, p), Children(t.unlinked, p);
      var rest, more := queue[1..] + kids, if Competes(t1, p, tip) then {p} else {};
      DrainKeeps(t1, rest, candidates + more, failed, tip);
      hide *;
      GrowsMore(t, t1, p, kids, candidates, more, Drain(t1, rest, candidates + more, tip).0, Drain(t1, rest, candidates + more, tip).1);
      if NothingLost(t, queue, candidates, failed, tip) {
        FrontIsQueued(queue);
        RelinkedLosesNothing(t, t1, p, queue, kids, rest, candidates, failed, tip);
      }
    } else {
      hide Counted, NothingLost, IsLinked;
    }
  }

  // ----- a block arrives, perhaps again -----

  lemma {:induction false} TotalTxSame(t: Tables, b: CBlockIndex, n: nat, c: CBlockIndex)
    requires Counted(t, []) && b in t.blocks && (t.tx[b] != 0 ==> n == t.tx[b])
    requires c in t.blocks && IsLinked(t, c)
    ensures Tree(c) && TotalTx(t.tx[b := n], c) == TotalTx(t.tx, c)
    decreases c.nHeight
  {
    assert CountOk(t, [], c);
    if c.pprev != null {
      TotalTxSame(t, b, n, c.pprev);
    }
  }

  /** The block of `b` has arrived; a block that was here before is the same block. */
  ghost predicate Arrives(t: Tables, b: CBlockIndex, n: nat)
  {
    && Counted(t, []) && b in t.blocks && b !in t.data && n >= 1 && (t.tx[b] != 0 ==> n == t.tx[b])
  }

  lemma ArrivedShape(t: Tables, b: CBlockIndex, n: nat)
    requires Arrives(t, b, n)
    ensures Shape(WithData(t, b, n))
  {
    hide Tree, CountOk, LinkOk;
  }

  lemma ArrivedAt(t: Tables, b: CBlockIndex, n: nat, c: CBlockIndex)
    requires Arrives(t, b, n)
    ensures IsLinked(WithData(t, b, n), c) <==> IsLinked(t, c) && c != b
    ensures c in t.blocks && c != b && IsLinked(t, c) ==> Shape(WithData(t, b, n)) && CountOk(WithData(t, b, n), [b], c)
  {
    if c in t.blocks && c != b && IsLinked(t, c) {
      ArrivedShape(t, b, n);
      TotalTxSame(t, b, n, c);
      assert CountOk(t, [], c);
    }
  }

  lemma ArrivedLinks(t: Tables, b: CBlockIndex, n: nat)
    requires Arrives(t, b, n)
    ensures forall l :: l in t.unlinked ==> l.child != b && LinkOk(WithData(t, b, n), l)
  {
    hide Tree, CountOk;
    forall l | l in t.unlinked ensures l.child != b && LinkOk(WithData(t, b, n), l) {
      assert LinkOk(t, l);
      ArrivedAt(t, b, n, l.child);
      ArrivedAt(t, b, n, l.parent);
    }
  }

  lemma ParentIsBelow(t: Tables, b: CBlockIndex)
    requires Shape(t) && b in t.blocks && b.pprev != null
    ensures b.pprev in t.blocks && b.pprev != b && Tree(b)
  {
  }

  lemma ArrivedQueued(t: Tables, b: CBlockIndex, n: nat)
    requires Arrives(t, b, n) && ParentLinked(t, b)
    ensures Counted(WithData(t, b, n), [b])
  {
    ArrivedShape(t, b, n);
    ArrivedLinks(t, b, n);
    var t' := WithData(t, b, n);
    forall c | c in t.blocks && IsLinked(t', c) ensures CountOk(t', [b], c) {
      ArrivedAt(t, b, n, c);
    }
    forall c | c in t.blocks && !IsLinked(t', c) && c !in [b] ensures t'.seqs[c] == 0 {
      ArrivedAt(t, b, n, c);
    }
    if b.pprev != null {
      ParentIsBelow(t, b);
      ArrivedAt(t, b, n, b.pprev);
    }
    hide Shape, Counted, CountOk, LinkOk;
    CountedParts(t', [b]);
  }

  lemma LinkedParent(t: Tables, b: CBlockIndex)
    requires Counted(t, []) && b in t.blocks
    ensures IsLinked(t, b) ==> ParentLinked(t, b)
  {
    hide Tree, LinkOk, TotalTx;
  }

  /** Links that may be added. */
  ghost predicate NewLinksOk(t: Tables, links: seq<Link>)
  {
    forall l :: l in links ==> LinkOk(t, l)
  }

  lemma MoreLinks(t: Tables, queue: seq<CBlockIndex>, links: seq<Link>)
    requires Counted(t, queue) && NewLinksOk(t, links)
    ensures Counted(t.(unlinked := t.unlinked + links), queue)
  {
    hide Tree, TotalTx;
    var t' := t.(unlinked := t.unlinked + links);
    forall l | l in t'.unlinked ensures LinkOk(t', l) {
      assert LinkOk(t, l);
    }
    forall c | c in t.blocks && IsLinked(t', c) ensures CountOk(t', queue, c) {
      assert CountOk(t, queue, c);
    }
  }

  // Its parent is not linked, so neither is it.
  lemma ArrivedUnlinked(t: Tables, b: CBlockIndex, n: nat)
    requires Arrives(t, b, n) && !ParentLinked(t, b)
    ensures b.pprev != null && !IsLinked(t, b) && WithData(t, b, n).chainTx == t.chainTx
    ensures Counted(WithData(t, b, n), [])
    ensures Counted(WithData(t, b, n).(unlinked := t.unlinked + [Link(b.pprev, b)]), [])
  {
    LinkedParent(t, b);
    ArrivedShape(t, b, n);
    ArrivedLinks(t, b, n);
    var t1 := WithData(t, b, n);
    assert t1.chainTx == t.chainTx;
    forall c | c in t.blocks && IsLinked(t1, c) ensures CountOk(t1, [], c) {
      assert CountOk(t, [], c);
      TotalTxSame(t, b, n, c);
    }
    hide Tree, CountOk, TotalTx;
    assert Counted(t1, []);
    MoreLinks(t1, [], [Link(b.pprev, b)]);
  }

  /** Tables and candidates after a block has arrived. */
  ghost function Received(t: Tables, candidates: set<CBlockIndex>, b: CBlockIndex, n: nat, parentFailed: bool, tip: CBlockIndex?): (Tables, set<CBlockIndex>)
    requires Arrives(t, b, n)
  {
    if ParentLinked(t, b) then
      ArrivedQueued(t, b, n);
      Drain(WithData(t, b, n), [b], candidates, tip)
    else if parentFailed then (WithData(t, b, n), candidates)
    else (WithData(t, b, n).(unlinked := t.unlinked + [Link(b.pprev, b)]), candidates)
  }

  lemma ArrivedOffers(t: Tables, candidates: set<CBlockIndex>, failed: set<CBlockIndex>, b: CBlockIndex, n: nat, tip: CBlockIndex?)
    requires Arrives(t, b, n) && Offered(t, [], candidates, failed, tip) && TipOk(t, [], tip)
    ensures Offered(WithData(t, b, n), [b], candidates, failed, tip) && TipOk(WithData(t, b, n), [b], tip)
  {
    hide Counted, Tree, NoneIn, Worse;
    var t' := WithData(t, b, n);
    if tip != null {
      ArrivedAt(t, b, n, tip);
    }
    forall c | c in t'.data && Eligible(t', failed, tip, c) ensures c in candidates || c in [b] || HasLink(t', c) {
      ArrivedAt(t, b, n, c);
      assert Eligible(t, failed, tip, c);
    }
  }

  // A block that did not fail leaves nothing stuck or unstuck.
  lemma {:induction false} StuckStays(tx: map<CBlockIndex, nat>, failed: set<CBlockIndex>, b: CBlockIndex, n: nat, c: CBlockIndex)
    requires Tree(c) && b !in failed
    ensures Stuck(tx[b := n], failed, c) <==> Stuck(tx, failed, c)
    decreases c.nHeight
  {
    if c.pprev != null {
      StuckStays(tx, failed, b, n, c.pprev);
    }
  }

  lemma InVainStays(t: Tables, t': Tables, failed: set<CBlockIndex>, b: CBlockIndex, c: CBlockIndex)
    requires b !in failed && b in t'.tx && t'.tx == t.tx[b := t'.tx[b]]
    ensures InVain(t', failed, c) <==> InVain(t, failed, c)
  {
    if Tree(c) {
      StuckStays(t.tx, failed, b, t'.tx[b], c);
    }
  }

  lemma ArrivedWaits(t: Tables, failed: set<CBlockIndex>, lost: set<CBlockIndex>, b: CBlockIndex, n: nat)
    requires Arrives(t, b, n) && b !in failed && Complete(t, [], failed, lost)
    ensures Complete(WithData(t, b, n), [b], failed, lost)
  {
    var t' := WithData(t, b, n);
    hide Counted, Tree, InVain;
    forall c | c in t'.tx && t'.tx[c] >= 1 && !IsLinked(t', c) && c !in [b] && c !in lost ensures HasLink(t', c) || InVain(t', failed, c) {
      ArrivedAt(t, b, n, c);
      InVainStays(t, t', failed, b, c);
    }
  }

  lemma ArrivedGrounded(t: Tables, failed: set<CBlockIndex>, b: CBlockIndex, n: nat)
    requires b in t.blocks && b !in failed && Grounded(t, [], failed)
    ensures Grounded(WithData(t, b, n), [b], failed)
  {
    var t' := WithData(t, b, n);
    hide Tree, InVain;
    forall l | l in t'.unlinked
      ensures l.parent !in t'.data || l.parent in [b] || HasLink(t', l.parent) || InVain(t', failed, l.parent)
    {
      InVainStays(t, t', failed, b, l.parent);
    }
  }

  lemma ArrivedLosesNothing(t: Tables, candidates: set<CBlockIndex>, failed: set<CBlockIndex>, b: CBlockIndex, n: nat, tip: CBlockIndex?)
    requires Arrives(t, b, n) && b !in failed && NothingLost(t, [], candidates, failed, tip)
    ensures NothingLost(WithData(t, b, n), [b], candidates, failed, tip)
  {
    ArrivedOffers(t, candidates, failed, b, n, tip);
    ArrivedWaits(t, failed, {}, b, n);
    ArrivedGrounded(t, failed, b, n);
    hide Arrives, Complete, Grounded, Offered, TipOk;
  }

  lemma WaitingWaits(t: Tables, t': Tables, failed: set<CBlockIndex>, b: CBlockIndex)
    requires b.pprev != null && b !in failed && Complete(t, [], failed, {})
    requires t'.data == t.data + {b} && t'.chainTx == t.chainTx && b in t'.tx && t'.tx == t.tx[b := t'.tx[b]]
    requires forall l :: l in t.unlinked ==> l in t'.unlinked
    requires Link(b.pprev, b) in t'.unlinked || InVain(t', failed, b)
    ensures Complete(t', [], failed, {})
  {
    hide Tree, InVain;
    forall c | c in t'.tx && t'.tx[c] >= 1 && !IsLinked(t', c) ensures HasLink(t', c) || InVain(t', failed, c) {
      assert c != b ==> HasLink(t, c) || InVain(t, failed, c);
      InVainStays(t, t', failed, b, c);
    }
  }

  lemma WaitingGrounded(t: Tables, t': Tables, failed: set<CBlockIndex>, b: CBlockIndex)
    requires b.pprev != null && b !in failed && Grounded(t, [], failed) && b.pprev != b
    requires t'.data == t.data + {b} && b in t'.tx && t'.tx == t.tx[b := t'.tx[b]]
    requires forall l :: l in t.unlinked ==> l in t'.unlinked
    requires forall l :: l in t'.unlinked ==> l in t.unlinked || l == Link(b.pprev, b)
    requires Link(b.pprev, b) in t'.unlinked || InVain(t', failed, b)
    requires b.pprev in t.data ==> HasLink(t, b.pprev) || InVain(t, failed, b.pprev)
    ensures Grounded(t', [], failed)
  {
    hide Tree, InVain;
    forall l | l in t'.unlinked ensures l.parent !in t'.data || HasLink(t', l.parent) || InVain(t', failed, l.parent) {
      InVainStays(t, t', failed, b, l.parent);
    }
  }

  lemma WaitingOffers(t1: Tables, t': Tables, candidates: set<CBlockIndex>, failed: set<CBlockIndex>, b: CBlockIndex, tip: CBlockIndex?)
    requires Offered(t1, [b], candidates, failed, tip) && TipOk(t1, [b], tip) && !IsLinked(t1, b)
    requires t' == t1.(unlinked := t'.unlinked) && forall l :: l in t1.unlinked ==> l in t'.unlinked
    requires forall l :: l in t'.unlinked ==> l in t1.unlinked || l.child == b
    ensures Offered(t', [], candidates, failed, tip) && TipOk(t', [], tip)
  {
    hide Tree, NoneIn, Worse;
    forall c | c in t'.data && Eligible(t', failed, tip, c) ensures c in candidates || HasLink(t', c) {
      assert Eligible(t1, failed, tip, c);
    }
  }

  // The parent of a new link waits itself, when it was received.
  lemma ParentWaits(t: Tables, failed: set<CBlockIndex>, b: CBlockIndex)
    requires Shape(t) && Complete(t, [], failed, {}) && b in t.blocks && b.pprev != null && !IsLinked(t, b.pprev)
    ensures b.pprev in t.data ==> HasLink(t, b.pprev) || InVain(t, failed, b.pprev)
  {
    if b.pprev in t.data {
      assert t.tx[b.pprev] >= 1;
    }
  }

  lemma InVainAbove(t: Tables, failed: set<CBlockIndex>, b: CBlockIndex, n: nat)
    requires Arrives(t, b, n) && b.pprev != null && b !in failed
    ensures InVain(WithData(t, b, n), failed, b) <==> InVain(t, failed, b.pprev)
  {
    ParentIsBelow(t, b);
    StuckStays(t.tx, failed, b, n, b.pprev);
  }

  /** The tables after a block has arrived whose parent is not linked. */
  ghost function Waiting(t: Tables, b: CBlockIndex, n: nat, linked: bool): Tables
    requires b in t.blocks && b.pprev != null
  {
    if linked then WithData(t, b, n).(unlinked := t.unlinked + [Link(b.pprev, b)]) else WithData(t, b, n)
  }

  lemma WaitingParts(t: Tables, b: CBlockIndex, n: nat, linked: bool)
    requires Arrives(t, b, n) && b.pprev != null && !IsLinked(t, b)
    ensures var t' := Waiting(t, b, n, linked);
            && t'.data == t.data + {b} && t'.chainTx == t.chainTx && b in t'.tx && t'.tx == t.tx[b := t'.tx[b]]
            && t' == WithData(t, b, n).(unlinked := t'.unlinked)
            && (forall l :: l in t.unlinked ==> l in t'.unlinked)
            && (forall l :: l in t'.unlinked ==> l in t.unlinked || l == Link(b.pprev, b))
            && (linked ==> Link(b.pprev, b) in t'.unlinked)
  {
    hide Tree, CountOk, LinkOk;
  }

  lemma WaitingLosesNothing(t: Tables, candidates: set<CBlockIndex>, failed: set<CBlockIndex>, b: CBlockIndex, n: nat, linked: bool, tip: CBlockIndex?)
    requires Arrives(t, b, n) && !ParentLinked(t, b) && b.pprev != null && b !in failed && NothingLost(t, [], candidates, failed, tip)
    requires linked || InVain(t, failed, b.pprev)
    ensures NothingLost(Waiting(t, b, n, linked), [], candidates, failed, tip)
  {
    var t1, t' := WithData(t, b, n), Waiting(t, b, n, linked);
    ArrivedUnlinked(t, b, n);
    ParentIsBelow(t, b);
    WaitingParts(t, b, n, linked);
    ParentWaits(t, failed, b);
    InVainAbove(t, failed, b, n);
    ArrivedOffers(t, candidates, failed, b, n, tip);
    hide Counted, Arrives, Tree, Stuck, Complete, Grounded, Offered, TipOk, Waiting;
    assert !IsLinked(t1, b);
    assert InVain(t', failed, b) == InVain(t1, failed, b);
    WaitingWaits(t, t', failed, b);
    WaitingGrounded(t, t', failed, b);
    WaitingOffers(t1, t', candidates, failed, b, tip);
  }

  // Without a link it is lost, unless it waits in vain anyway.
  lemma ForgottenIsLost(t: Tables, failed: set<CBlockIndex>, b: CBlockIndex, n: nat)
    requires Arrives(t, b, n) && !ParentLinked(t, b) && b.pprev != null && b !in failed && !InVain(t, failed, b.pprev)
    ensures !Complete(WithData(t, b, n), [], failed, {})
  {
    var t1 := WithData(t, b, n);
    ArrivedUnlinked(t, b, n);
    ArrivedLinks(t, b, n);
    InVainAbove(t, failed, b, n);
    hide Counted, Tree, InVain;
    assert !HasLink(t1, b) && !IsLinked(t1, b) && t1.tx[b] >= 1;
  }

  lemma RelinkedSkips(t: Tables, t': Tables, p: CBlockIndex, queue: seq<CBlockIndex>, kids: seq<CBlockIndex>, rest: seq<CBlockIndex>, b: CBlockIndex)
    requires Relinked(t, t', p, kids) && NextQueue(queue, kids, p, rest) && p in queue
    requires b in t.chainTx && b in t.seqs && b !in queue && forall l :: l in t.unlinked ==> l.child != b
    ensures b !in rest && forall l :: l in t'.unlinked ==> l.child != b
    ensures t'.chainTx[b] == t.chainTx[b] && t'.seqs[b] == t.seqs[b]
  {
    assert b in kids ==> Link(p, b) in t.unlinked;
  }

  // Without a link and outside the queue an entry stays as it is.
  lemma {:induction false} DrainSkips(t: Tables, queue: seq<CBlockIndex>, candidates: set<CBlockIndex>, tip: CBlockIndex?, b: CBlockIndex)
    requires Counted(t, queue) && b in t.blocks && b !in queue && forall l :: l in t.unlinked ==> l.child != b
    ensures var t' := Drain(t, queue, candidates, tip).0;
            && b in t.chainTx && b in t.seqs && b in t'.chainTx && b in t'.seqs
            && t'.chainTx[b] == t.chainTx[b] && t'.seqs[b] == t.seqs[b] && forall l :: l in t'.unlinked ==> l.child != b
    decreases |t.unlinked| + |queue|
  {
    if queue != [] {
      DrainNext(t, queue, candidates, tip);
      var p, kids := queue[0], Children(t.unlinked, queue[0]);
      var t1, more := LinkFront(t, p), if Competes(LinkFront(t, p), p, tip) then {p} else {};
      FrontIsQueued(queue);
      RelinkedSkips(t, t1, p, queue, kids, queue[1..] + kids, b);
      DrainSkips(t1, queue[1..] + kids, candidates + more, tip, b);
    }
  }

  lemma {:induction false} DrainWaits(t: Tables, queue: seq<CBlockIndex>, candidates: set<CBlockIndex>, tip: CBlockIndex?,
                                      failed: set<CBlockIndex>, lost: set<CBlockIndex>)
    requires Counted(t, queue) && Complete(t, queue, failed, lost)
    ensures Complete(Drain(t, queue, candidates, tip).0, [], failed, lost)
    decreases |t.unlinked| + |queue|
  {
    if queue != [] {
      DrainNext(t, queue, candidates, tip);
      var p, kids := queue[0], Children(t.unlinked, queue[0]);
      var t1, more := LinkFront(t, p), if Competes(LinkFront(t, p), p, tip) then {p} else {};
      FrontIsQueued(queue);
      RelinkedWaits(t, t1, p, queue, kids, queue[1..] + kids, failed, lost);
      DrainWaits(t1, queue[1..] + kids, candidates + more, tip, failed, lost);
    }
  }

  // The block that arrives is linked at once.
  lemma LinkedAgain(t: Tables, b: CBlockIndex, n: nat, candidates: set<CBlockIndex>, tip: CBlockIndex?)
    requires Arrives(t, b, n) && Counted(WithData(t, b, n), [b])
    ensures IsLinked(Drain(WithData(t, b, n), [b], candidates, tip).0, b)
  {
    var t1 := WithData(t, b, n);
    DrainNext(t1, [b], candidates, tip);
    var kids := Children(t1.unlinked, b);
    var more := if Competes(LinkFront(t1, b), b, tip) then {b} else {};
    DrainKeeps(LinkFront(t1, b), [b][1..] + kids, candidates + more, {}, tip);
  }

  /** The block waits for its parent, or in vain, when its parent is not linked. */
  ghost predicate NotForgotten(t: Tables, failed: set<CBlockIndex>, b: CBlockIndex, parentFailed: bool)
  {
    ParentLinked(t, b) || !parentFailed || InVain(t, failed, b.pprev)
  }

  lemma UnlinkedLosesNothing(t: Tables, candidates: set<CBlockIndex>, failed: set<CBlockIndex>, b: CBlockIndex, n: nat, parentFailed: bool,
                             tip: CBlockIndex?)
    requires Arrives(t, b, n) && !ParentLinked(t, b) && b !in failed && NothingLost(t, [], candidates, failed, tip)
    ensures NothingLost(Received(t, candidates, b, n, parentFailed, tip).0, [], candidates, failed, tip)
            <==> NotForgotten(t, failed, b, parentFailed)
  {
    if NotForgotten(t, failed, b, parentFailed) {
      WaitingLosesNothing(t, candidates, failed, b, n, !parentFailed, tip);
    } else {
      ForgottenIsLost(t, failed, b, n);
    }
    hide Counted, Arrives, Complete, Grounded, Offered, TipOk, InVain;
  }

  lemma LinkedLosesNothing(t: Tables, candidates: set<CBlockIndex>, failed: set<CBlockIndex>, b: CBlockIndex, n: nat, parentFailed: bool,
                           tip: CBlockIndex?)
    requires Arrives(t, b, n) && ParentLinked(t, b) && b !in failed && NothingLost(t, [], candidates, failed, tip)
    ensures var (t', candidates') := Received(t, candidates, b, n, parentFailed, tip);
            NothingLost(t', [], candidates', failed, tip)
  {
    ArrivedQueued(t, b, n);
    ArrivedLosesNothing(t, candidates, failed, b, n, tip);
    DrainKeeps(WithData(t, b, n), [b], candidates, failed, tip);
    hide Counted, Arrives, NothingLost;
  }

  // Receiving a block that did not fail: nothing is lost exactly when it is not forgotten.
  lemma ReceivedKeeps(t: Tables, candidates: set<CBlockIndex>, failed: set<CBlockIndex>, b: CBlockIndex, n: nat, parentFailed: bool, tip: CBlockIndex?)
    requires Arrives(t, b, n)
    ensures var (t', candidates') := Received(t, candidates, b, n, parentFailed, tip);
            && Counted(t', []) && t'.blocks == t.blocks && t'.data == t.data + {b} && t'.tx == t.tx[b := n]
            && candidates <= candidates' && t'.next >= t.next
            && (forall c :: c in candidates' && c !in candidates ==> IsLinked(t', c))
            && (forall c :: c in t.chainTx && IsLinked(t, c) ==> IsLinked(t', c))
            && (b !in failed && NothingLost(t, [], candidates, failed, tip) ==>
                  (NothingLost(t', [], candidates', failed, tip) <==> NotForgotten(t, failed, b, parentFailed)))
  {
    if ParentLinked(t, b) {
      ArrivedQueued(t, b, n);
      DrainKeeps(WithData(t, b, n), [b], candidates, failed, tip);
      LinkedAgain(t, b, n, candidates, tip);
      if b !in failed && NothingLost(t, [], candidates, failed, tip) {
        LinkedLosesNothing(t, candidates, failed, b, n, parentFailed, tip);
      }
      hide Counted, NothingLost, Drain;
      forall c | c in t.chainTx && IsLinked(t, c) ensures IsLinked(Received(t, candidates, b, n, parentFailed, tip).0, c) {
        ArrivedAt(t, b, n, c);
      }
    } else {
      ArrivedUnlinked(t, b, n);
      if b !in failed && NothingLost(t, [], candidates, failed, tip) {
        UnlinkedLosesNothing(t, candidates, failed, b, n, parentFailed, tip);
      }
      hide Counted, NothingLost, NotForgotten;
    }
  }

  // ----- a header arrives -----

  lemma HeaderTables(t: Tables, b: CBlockIndex)
    requires Counted(t, []) && b !in t.blocks && Shape(WithEntry(t, b))
    ensures WithEntry(t, b).next >= 1
    ensures forall c :: c in WithEntry(t, b).blocks && !IsLinked(WithEntry(t, b), c) ==> WithEntry(t, b).seqs[c] == 0
    ensures forall l :: l in WithEntry(t, b).unlinked ==> LinkOk(WithEntry(t, b), l)
  {
    hide Tree, CountOk;
    forall l | l in t.unlinked ensures LinkOk(WithEntry(t, b), l) {
      assert LinkOk(t, l);
    }
  }

  lemma NothingQueued(t: Tables)
    ensures QueuedOk(t, [])
  {
  }

  lemma {:induction false} TotalTxMore(t: Tables, b: CBlockIndex, c: CBlockIndex)
    requires Shape(t) && b !in t.blocks && Tree(c)
    ensures TotalTx(t.tx[b := 0], c) == TotalTx(t.tx, c)
    decreases c.nHeight
  {
    if c.pprev != null {
      TotalTxMore(t, b, c.pprev);
    }
  }

  lemma HeaderCount(t: Tables, b: CBlockIndex, c: CBlockIndex)
    requires Counted(t, []) && b !in t.blocks && Shape(WithEntry(t, b)) && c in WithEntry(t, b).blocks && IsLinked(WithEntry(t, b), c)
    ensures CountOk(WithEntry(t, b), [], c)
  {
    assert c in t.blocks && CountOk(t, [], c);
    TotalTxMore(t, b, c);
    hide Tree, TotalTx, LinkOk;
  }

  lemma HeaderCounted(t: Tables, b: CBlockIndex)
    requires Counted(t, []) && b !in t.blocks && Tree(b) && (b.pprev != null ==> b.pprev in t.blocks)
    ensures Counted(WithEntry(t, b), [])
  {
    var t' := WithEntry(t, b);
    NewEntryShape(t, b);
    HeaderTables(t, b);
    NothingQueued(t');
    hide Counted, Shape, CountOk, LinkOk, QueuedOk;
    forall c | c in t'.blocks && IsLinked(t', c) ensures CountOk(t', [], c) {
      HeaderCount(t, b, c);
    }
    hide *;
    CountedParts(t', []);
  }

  lemma {:induction false} StuckWithHeader(tx: map<CBlockIndex, nat>, b: CBlockIndex, failed: set<CBlockIndex>, c: CBlockIndex)
    requires Tree(c) && b !in tx && Stuck(tx, failed, c)
    ensures Stuck(tx[b := 0], failed, c)
    decreases c.nHeight
  {
    if c.pprev != null && Stuck(tx, failed, c.pprev) {
      StuckWithHeader(tx, b, failed, c.pprev);
    }
  }

  lemma InVainMore(t: Tables, b: CBlockIndex, failed: set<CBlockIndex>, c: CBlockIndex)
    requires Shape(t) && b !in t.blocks && InVain(t, failed, c)
    ensures InVain(WithEntry(t, b), failed, c)
  {
    StuckWithHeader(t.tx, b, failed, c);
  }

  lemma HeaderLosesNothing(t: Tables, b: CBlockIndex, candidates: set<CBlockIndex>, failed: set<CBlockIndex>, tip: CBlockIndex?)
    requires Shape(t) && b !in t.blocks && NothingLost(t, [], candidates, failed, tip)
    ensures NothingLost(WithEntry(t, b), [], candidates, failed, tip)
  {
    var t' := WithEntry(t, b);
    hide Tree, NoneIn, Worse, InVain;
    forall c: CBlockIndex ensures IsLinked(t', c) <==> IsLinked(t, c) {
    }
    forall c | c in t'.tx && t'.tx[c] >= 1 && !IsLinked(t', c) ensures HasLink(t', c) || InVain(t', failed, c) {
      if !HasLink(t, c) {
        InVainMore(t, b, failed, c);
      }
    }
    forall l | l in t'.unlinked ensures l.parent !in t'.data || HasLink(t', l.parent) || InVain(t', failed, l.parent) {
      if InVain(t, failed, l.parent) {
        InVainMore(t, b, failed, l.parent);
      }
    }
    forall c | c in t'.data && Eligible(t', failed, tip, c) ensures c in candidates || HasLink(t', c) {
      assert c != b;
      assert Eligible(t, failed, tip, c);
    }
  }

  lemma HeaderKeeps(t: Tables, b: CBlockIndex, candidates: set<CBlockIndex>, failed: set<CBlockIndex>, tip: CBlockIndex?)
    requires Counted(t, []) && b !in t.blocks && Tree(b) && (b.pprev != null ==> b.pprev in t.blocks)
    ensures Counted(WithEntry(t, b), [])
    ensures NothingLost(t, [], candidates, failed, tip) ==> NothingLost(WithEntry(t, b), [], candidates, failed, tip)
  {
    HeaderCounted(t, b);
    if NothingLost(t, [], candidates, failed, tip) {
      HeaderLosesNothing(t, b, candidates, failed, tip);
    }
  }

  // ----- deleting old data -----

  function Erased(u: seq<Link>, l: Link): seq<Link>
  {
    if u == [] then []
    else Erased(u[..|u| - 1], l) + if u[|u| - 1] == l then [] else [u[|u| - 1]]
  }

  lemma {:induction false} ErasedAre(u: seq<Link>, l: Link)
    ensures forall x :: x in Erased(u, l) <==> x in u && x != l
  {
    if u != [] {
      ErasedAre(u[..|u| - 1], l);
      assert u == u[..|u| - 1] + [u[|u| - 1]];
    }
  }

  lemma ErasedAt(u: seq<Link>, l: Link, x: Link)
    ensures x in Erased(u, l) <==> x in u && x != l
  {
    ErasedAre(u, l);
  }

  /** The data of `b` is deleted, and its link with it. */
  ghost function Pruned(t: Tables, b: CBlockIndex): Tables
  {
    t.(data := t.data - {b}, unlinked := if b.pprev == null then t.unlinked else Erased(t.unlinked, Link(b.pprev, b)))
  }

  /** `t'` is `t` without the data and the links of `b`. */
  ghost predicate Prunes(t: Tables, t': Tables, b: CBlockIndex)
  {
    && t' == t.(data := t.data - {b}, unlinked := t'.unlinked)
    && (forall l :: l in t'.unlinked ==> l in t.unlinked && l.child != b)
    && (forall l :: l in t.unlinked && l.child != b ==> l in t'.unlinked)
  }

  lemma PrunedIs(t: Tables, b: CBlockIndex)
    requires forall l :: l in t.unlinked ==> LinkOk(t, l)
    ensures Prunes(t, Pruned(t, b), b)
  {
    forall l | l in t.unlinked ensures l.child == b <==> b.pprev != null && l == Link(b.pprev, b) {
      assert LinkOk(t, l);
      assert l == Link(l.parent, l.child);
    }
    if b.pprev != null {
      var u := Erased(t.unlinked, Link(b.pprev, b));
      ErasedAre(t.unlinked, Link(b.pprev, b));
      forall l | l in u ensures l in t.unlinked && l.child != b {
        ErasedAt(t.unlinked, Link(b.pprev, b), l);
      }
      assert Pruned(t, b).unlinked == u;
    } else {
      assert Pruned(t, b).unlinked == t.unlinked;
    }
  }

  lemma PrunedAt(t: Tables, t': Tables, b: CBlockIndex, c: CBlockIndex)
    requires Prunes(t, t', b)
    ensures HasLink(t', c) <==> HasLink(t, c) && c != b
    ensures IsLinked(t', c) <==> IsLinked(t, c)
  {
    if HasLink(t, c) {
      assert Link(c.pprev, c) in t.unlinked;
    }
  }

  lemma PrunedCounted(t: Tables, t': Tables, b: CBlockIndex)
    requires Counted(t, []) && Prunes(t, t', b)
    ensures Counted(t', [])
  {
    hide Tree, TotalTx;
    forall c: CBlockIndex ensures IsLinked(t', c) <==> IsLinked(t, c) {
    }
    forall c | c in t'.blocks && IsLinked(t', c) ensures CountOk(t', [], c) {
      assert CountOk(t, [], c);
    }
    forall l | l in t'.unlinked ensures LinkOk(t', l) {
      assert LinkOk(t, l);
    }
  }

  lemma PrunedLosesNothing(t: Tables, t': Tables, b: CBlockIndex, candidates: set<CBlockIndex>, failed: set<CBlockIndex>, tip: CBlockIndex?)
    requires b != tip && NothingLost(t, [], candidates, failed, tip) && (IsLinked(t, b) || InVain(t, failed, b)) && Prunes(t, t', b)
    ensures NothingLost(t', [], candidates, failed, tip)
  {
    hide Tree, Stuck, NoneIn, Worse, HasLink;
    forall c | c in t'.tx && t'.tx[c] >= 1 && !IsLinked(t', c) ensures HasLink(t', c) || InVain(t', failed, c) {
      PrunedAt(t, t', b, c);
    }
    forall l | l in t'.unlinked ensures l.parent !in t'.data || HasLink(t', l.parent) || InVain(t', failed, l.parent) {
      assert l in t.unlinked;
      PrunedAt(t, t', b, l.parent);
    }
    forall c | c in t'.data && Eligible(t', failed, tip, c) ensures c in candidates || HasLink(t', c) {
      PrunedAt(t, t', b, c);
      assert Eligible(t, failed, tip, c);
    }
    if tip != null {
      PrunedAt(t, t', b, tip);
    }
  }

  // Deleting data keeps the counts; nothing is lost exactly when the block is
  // linked, or waits in vain.
  lemma PruneKeeps(t: Tables, b: CBlockIndex, candidates: set<CBlockIndex>, failed: set<CBlockIndex>, tip: CBlockIndex?)
    requires Counted(t, []) && b in t.data
    ensures Counted(Pruned(t, b), [])
    ensures b != tip && NothingLost(t, [], candidates, failed, tip) ==>
              (NothingLost(Pruned(t, b), [], candidates, failed, tip) <==> IsLinked(t, b) || InVain(t, failed, b))
  {
    PrunedIs(t, b);
    var t' := Pruned(t, b);
    PrunedCounted(t, t', b);
    assert t.tx[b] >= 1;
    PrunedAt(t, t', b, b);
    if b != tip && NothingLost(t, [], candidates, failed, tip) && (IsLinked(t, b) || InVain(t, failed, b)) {
      PrunedLosesNothing(t, t', b, candidates, failed, tip);
    }
    assert InVain(t', failed, b) == InVain(t, failed, b);
    hide Counted, Grounded, Offered, TipOk, Pruned, HasLink, IsLinked, InVain;
  }

  // ----- a chain that cannot be used is taken out -----

  /** What removing the entries `gone` above `x`, and `x`, does when `x` failed or has no data. */
  ghost predicate TakesOut(t: Tables, failed: set<CBlockIndex>, x: CBlockIndex, gone: set<CBlockIndex>, links: seq<Link>)
  {
    && Shape(t) && (x in failed || x !in t.data) && x !in gone
    && (forall s :: s in gone ==> Tree(s) && s in t.data && IsLinked(t, s) && s.pprev != null && (s.pprev == x || s.pprev in gone))
    && (forall l :: l in links ==> l.child in gone && l.parent == l.child.pprev)
    && (x !in failed ==> forall s :: s in gone ==> Link(s.pprev, s) in links)
    && (x in failed ==> links == [])
  }

  lemma {:induction false} AboveFailed(t: Tables, failed: set<CBlockIndex>, x: CBlockIndex, gone: set<CBlockIndex>, links: seq<Link>, s: CBlockIndex)
    requires TakesOut(t, failed, x, gone, links) && x in failed && (s in gone || s == x) && Tree(s)
    ensures !NoneIn(failed, s)
    decreases s.nHeight
  {
    if s in gone {
      AboveFailed(t, failed, x, gone, links, s.pprev);
    }
  }

  lemma TakenLinksOk(t: Tables, failed: set<CBlockIndex>, x: CBlockIndex, gone: set<CBlockIndex>, links: seq<Link>)
    requires TakesOut(t, failed, x, gone, links)
    ensures NewLinksOk(t, links)
  {
    hide Tree;
  }

  // More failed entries leave more entries stuck.
  lemma {:induction false} StuckMore(tx: map<CBlockIndex, nat>, failed: set<CBlockIndex>, failed': set<CBlockIndex>, c: CBlockIndex)
    requires Tree(c) && failed <= failed' && Stuck(tx, failed, c)
    ensures Stuck(tx, failed', c)
    decreases c.nHeight
  {
    if c.pprev != null && Stuck(tx, failed, c.pprev) {
      StuckMore(tx, failed, failed', c.pprev);
    }
  }

  lemma MoreFailedWaits(t: Tables, failed: set<CBlockIndex>, failed': set<CBlockIndex>)
    requires failed <= failed' && Complete(t, [], failed, {}) && Grounded(t, [], failed)
    ensures Complete(t, [], failed', {}) && Grounded(t, [], failed')
  {
    forall c: CBlockIndex | InVain(t, failed, c) ensures InVain(t, failed', c) {
      StuckMore(t.tx, failed, failed', c);
    }
    hide InVain, HasLink;
  }

  lemma TakenOutWaits(t: Tables, failed: set<CBlockIndex>, x: CBlockIndex, gone: set<CBlockIndex>, links: seq<Link>)
    requires TakesOut(t, failed, x, gone, links) && Complete(t, [], failed, {}) && Grounded(t, [], failed)
    ensures Complete(t.(unlinked := t.unlinked + links), [], failed, {}) && Grounded(t.(unlinked := t.unlinked + links), [], failed)
  {
    hide Tree, Stuck;
    var t' := t.(unlinked := t.unlinked + links);
    forall c | c in t'.tx && t'.tx[c] >= 1 && !IsLinked(t', c) ensures HasLink(t', c) || InVain(t', failed, c) {
      assert HasLink(t, c) || InVain(t, failed, c);
    }
    forall l | l in t'.unlinked ensures l.parent !in t'.data || HasLink(t', l.parent) || InVain(t', failed, l.parent) {
      if l in t.unlinked {
        assert l.parent !in t.data || HasLink(t, l.parent) || InVain(t, failed, l.parent);
      }
    }
  }

  lemma {:induction false} FewerFailed(failed: set<CBlockIndex>, failed': set<CBlockIndex>, c: CBlockIndex)
    requires Tree(c) && failed <= failed' && NoneIn(failed', c)
    ensures NoneIn(failed, c)
    decreases c.nHeight
  {
    if c.pprev != null {
      FewerFailed(failed, failed', c.pprev);
    }
  }

  lemma TakenOutOffers(t: Tables, candidates: set<CBlockIndex>, failed: set<CBlockIndex>, tip: CBlockIndex?,
                       x: CBlockIndex, gone: set<CBlockIndex>, links: seq<Link>, failed': set<CBlockIndex>)
    requires TakesOut(t, failed, x, gone, links) && failed <= failed'
    requires Offered(t, [], candidates, failed, tip) && TipOk(t, [], tip) && (tip != null ==> tip !in gone)
    ensures var t' := t.(unlinked := t.unlinked + links);
            Offered(t', [], candidates - gone - {x}, failed', tip) && TipOk(t', [], tip)
  {
    hide Tree, Worse;
    var t' := t.(unlinked := t.unlinked + links);
    forall c | c in t'.data && Eligible(t', failed', tip, c) ensures c in candidates - gone - {x} || HasLink(t', c) {
      FewerFailed(failed, failed', c);
      assert Eligible(t, failed, tip, c);
      if c in gone || c == x {
        if x in failed {
          AboveFailed(t, failed, x, gone, links, c);
        }
      } else {
        assert c in candidates || HasLink(t, c);
      }
    }
  }

  lemma TakenOutKeeps(t: Tables, candidates: set<CBlockIndex>, failed: set<CBlockIndex>, tip: CBlockIndex?,
                      x: CBlockIndex, gone: set<CBlockIndex>, links: seq<Link>, failed': set<CBlockIndex>)
    requires Counted(t, []) && TakesOut(t, failed, x, gone, links) && failed <= failed'
    ensures Counted(t.(unlinked := t.unlinked + links), [])
    ensures NothingLost(t, [], candidates, failed, tip) && (tip != null ==> tip !in gone) ==>
              NothingLost(t.(unlinked := t.unlinked + links), [], candidates - gone - {x}, failed', tip)
  {
    TakenLinksOk(t, failed, x, gone, links);
    MoreLinks(t, [], links);
    if NothingLost(t, [], candidates, failed, tip) && (tip != null ==> tip !in gone) {
      TakenOutWaits(t, failed, x, gone, links);
      MoreFailedWaits(t.(unlinked := t.unlinked + links), failed, failed');
      TakenOutOffers(t, candidates, failed, tip, x, gone, links, failed');
      hide *;
    }
  }
}
